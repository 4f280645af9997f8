/** The records of ShareIt (the JPA entities, and the rows of their tables),
    as values, and the exceptions the services throw, as one error datatype. */
module Domain {
  import opened Wrappers

  /** `StatusEnum`: the approval status of a booking. */
  datatype Status = Waiting | Approved | Rejected | Canceled

  /** `User`. Instants are whole numbers of a single server clock. */
  datatype User = User(id: int, name: string, email: string)

  /** `UserDto`: a user as a client sends it; absent fields are `null`. */
  datatype UserDto = UserDto(id: Option<int>, name: Option<string>, email: Option<string>)

  /** `Item` as an entity: the owner is the associated user record;
      `request` is the id of the item request the item answers, if any. */
  datatype Item = Item(id: int, name: string, description: string, available: bool,
                       owner: User, request: Option<int>)

  /** `Booking` as an entity: `item` and `booker` are the associated records;
      `status` is `None` while a freshly built booking has not been given one yet. */
  datatype Booking = Booking(id: int, start: int, end: int, item: Item, booker: User,
                             status: Option<Status>)

  /** `Comment` as an entity. */
  datatype Comment = Comment(id: int, text: string, item: Item, user: User, created: int)

  /** A row of the items table: the owner is the `OWNER_ID` foreign key. */
  datatype ItemRow = ItemRow(id: int, name: string, description: string, available: bool,
                             ownerId: int, request: Option<int>)

  /** A row of the bookings table, with the `ITEM_ID` and `BOOKER_ID` foreign keys. */
  datatype BookingRow = BookingRow(id: int, start: int, end: int, itemId: int, bookerId: int,
                                   status: Option<Status>)

  /** A row of the comments table, with the `ITEM_ID` and `AUTHOR_ID` foreign keys. */
  datatype CommentRow = CommentRow(id: int, text: string, itemId: int, userId: int, created: int)

  /** `ItemRequest`. `id` is `None` until the request is saved. */
  datatype ItemRequest = ItemRequest(id: Option<int>, description: string,
                                     requester: Option<User>, created: int)

  /** The exceptions thrown by the services, each with its message. */
  datatype Error =
    | ObjectNotFound(message: string)
    | ObjectAlreadyExists(message: string)
    | BookingAccessDeniedForOwner(message: string)
    | BookingAccessDenied(message: string)
    | StartTimeAndEndTime(message: string)
    | ValidException(message: string)        // the project's own ValidException
    | ValidationException(message: string)   // javax.validation.ValidationException
    | UnknownState(message: string)
    | CommentAccessDenied(message: string)
    | IllegalArgument(message: string)
    | Arithmetic(message: string)
    | NullPointer
    | DataIntegrityViolation                 // a foreign-key constraint refused the statement
}
