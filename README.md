# ShareIt: a verified model of the sharing service core

ShareIt lets users offer items for rent, book other users' items for a time
window, comment on items they have rented, and post requests for items
nobody offers yet. This project models, in Dafny, the core of the server.

- **Booking service.** Creating a booking runs guards in a fixed order and fails on the first one:
  - the caller must exist and the item must exist;
  - the time window must be valid;
  - the booker must not be the item's owner;
  - the item must be available;
  - no approved booking of the item may overlap the window.

  The owner approves or rejects a booking, and bookings are listed by state with offset paging.
- **Booking repository.** The selection queries, including the overlap query with inclusive bounds.
- **Item service.** Creating and patching items, deleting them, searching them, commenting, and computing an item's last and next booking.
- **Item repository.** The case-insensitive search and the lookups by owner and by request.
- **In-memory storages.** The item store (an items map plus an owner → item-ids index) and the user store (an id → user map, an e-mail set and an id → e-mail map). Both are classes whose methods update their fields in place.
- **User service.** Reading, creating and patching a user over a table with a unique e-mail column.
- **Item-request service.** Opening a request, listing the caller's requests or other users' requests (newest first, paged), and attaching the items offered for each request.
- **Mappers.** The field-copying conversions between records and their DTOs.
- **Gateway validator.** `CheckBlank`.

The relational store behind the JPA repositories is one `Database` class.
- Users are a map from id to user.
- Items, bookings, comments and requests are sequences in insertion order, each with its identity counter.
- An item, booking or comment row holds its associations as foreign keys: an item row holds its owner's id; a booking row holds its item's id and its booker's id; a comment row holds its item's id and its author's id.
- A query loads entities from the current rows (`ItemEntities`, `BookingEntities`, `CommentEntities`), fetching each association by its key. So a booking read after its item was patched shows the patched item, as the ORM's fetch does.
- A key that names no row loads as a reference that knows only its id, like an uninitialised lazy proxy. `Valid()` rules such keys out.
- `Database.Valid()` states the store's invariant:
  - ids are positive and below their counter;
  - ids increase along each table;
  - users are stored under their own id;
  - no two users share an e-mail;
  - every booking has a status;
  - every foreign key names a stored row.

Every state-changing service method keeps `Valid()`.

Modelling choices:
- Times are integers, and "now" is a parameter of the calls that read the clock.
- Exceptions are an `Error` datatype whose constructors carry the exact messages the code formats.
- `String.format("%d")` is `IntToString`.
- Java's truncating `/` is modelled explicitly for the paging arithmetic.
- `from` and `size` are Java `Integer`s, so the page index `from / size` wraps to 32 bits (`Wrap32`): `Integer.MIN_VALUE / -1` is `Integer.MIN_VALUE`, which gives the negative-index error.
- A repository `save` of an entity whose id is not null is a JPA merge. An id naming a stored row updates that row. Any other id gives a new row under the next identity value: the model assumes Hibernate's merge of an unknown detached id persists a copy with a generated id. The booking, item and comment mappers copy the DTO's id, so a create request carrying a stored id overwrites that row.
- `PageRequest.of` rejects a negative page index and then a size below one; a zero size fails first with `ArithmeticException`.
- A query with `Sort.by(DESC, "start")` or `order by … desc` is modelled as a stable sort of the table order.

## Model

| member | source | states |
|---|---|---|
| BookingService.CheckUser | src/main/java/ru/practicum/shareit/booking/service/BookingServiceImpl.java:204-207 | the user is returned exactly when the id is stored; otherwise not-found with "Пользователь с id %d не найден" |
| BookingService.CheckItem | src/main/java/ru/practicum/shareit/booking/service/BookingServiceImpl.java:209-212 | the item with that id is returned exactly when one is stored; otherwise "Вещь с id %d не найдена" |
| BookingService.CheckBooking | src/main/java/ru/practicum/shareit/booking/service/BookingServiceImpl.java:214-217 | the position of the booking with that id, or "Бронирование с id %d не найдено" |
| BookingService.CheckOwner | src/main/java/ru/practicum/shareit/booking/service/BookingServiceImpl.java:219-227 | passes iff the user and the item exist and the item's owner is the user; each failure has its own error, checked in order |
| BookingService.CheckTime | src/main/java/ru/practicum/shareit/booking/service/BookingServiceImpl.java:229-245 | the four checks in order, each with its message; passes exactly when now <= start < end |
| BookingService.CheckTimeFailureKind | src/main/java/ru/practicum/shareit/booking/service/BookingServiceImpl.java:229-245 | every time failure is a StartTimeAndEndTime error |
| BookingService.CreateGuards | src/main/java/ru/practicum/shareit/booking/service/BookingServiceImpl.java:163-179 | the first failing guard decides the error (user, item id, item, time, owner, availability, overlap); success iff all pass, giving the caller and the item |
| BookingService.AdmittedBookingIsSound | src/main/java/ru/practicum/shareit/booking/service/BookingServiceImpl.java:167-179 | an admitted booking has a window not yet started and not empty, a booker other than the owner, an available item, and no approved booking of the item intersecting the window |
| BookingService.CreateBooking | src/main/java/ru/practicum/shareit/booking/service/BookingServiceImpl.java:162-183 | on failure nothing is stored; on success the booking from the DTO (its id, the requested window, the item, the caller as booker, status WAITING) is saved as a row of keys: it replaces the stored booking with the DTO id if there is one, and is otherwise appended under the next id; the saved booking is returned, the store stays valid, and `findBooking` by the caller then gives back exactly what was returned |
| BookingService.SaveWaiting | src/main/java/ru/practicum/shareit/booking/service/BookingServiceImpl.java:180-182 | a WAITING booking of the item by the caller is saved, replacing the row with the DTO id or appended under the next id, and `findBooking` by the caller then gives back its DTO |
| BookingService.SaveBooking | src/main/java/ru/practicum/shareit/booking/service/BookingServiceImpl.java:182 | `save` as a JPA merge: a booking whose id is stored replaces that row and the counter is kept; any other is appended under the next identity value; the store stays valid, and loading the row under the saved id gives back the saved booking |
| BookingService.OverwriteBooking | src/main/java/ru/practicum/shareit/booking/service/BookingServiceImpl.java:182 | the merge of a booking whose id is stored: that row alone is replaced, and loading it gives back the booking |
| BookingService.InsertBooking | src/main/java/ru/practicum/shareit/booking/service/BookingServiceImpl.java:182 | the insert of a booking whose id is not stored: it is appended under the next identity value, the counter advances, and loading the last row gives back the saved booking |
| BookingService.BookerFindsBooking | src/main/java/ru/practicum/shareit/booking/service/BookingServiceImpl.java:36-46 | a stored booking is shown by `findBooking` to its booker, as its DTO |
| BookingService.Decide | src/main/java/ru/practicum/shareit/booking/service/BookingServiceImpl.java:190-200 | approving fails iff already APPROVED, rejecting iff already REJECTED, with the two messages; otherwise the new status is APPROVED or REJECTED |
| BookingService.RepeatedDecisionFails | src/main/java/ru/practicum/shareit/booking/service/BookingServiceImpl.java:190-200 | the same decision taken twice fails the second time |
| BookingService.DecisionsCanBeReversed | src/main/java/ru/practicum/shareit/booking/service/BookingServiceImpl.java:190-200 | an approved booking can be rejected and a rejected one approved; a waiting one can take either decision |
| BookingService.DecideGuards | src/main/java/ru/practicum/shareit/booking/service/BookingServiceImpl.java:186-200 | user, booking and ownership are checked in that order before the decision; success names the booking's position and its new status |
| BookingService.NonOwnerCannotDecide | src/main/java/ru/practicum/shareit/booking/service/BookingServiceImpl.java:219-227 | a caller who does not own the booked item gets a not-found error |
| BookingService.ApproveOrRejectBooking | src/main/java/ru/practicum/shareit/booking/service/BookingServiceImpl.java:185-202 | on failure nothing changes; on success only the status of that one booking row changes, the store stays valid, and the returned DTO is the booking as now loaded from the store |
| BookingService.RecordDecision | src/main/java/ru/practicum/shareit/booking/service/BookingServiceImpl.java:190-201 | only the status of that booking row is set; the booking returned is the one now loaded from the store, which is the old booking with the new status |
| BookingService.FindBookingFor | src/main/java/ru/practicum/shareit/booking/service/BookingServiceImpl.java:35-46 | the booking is shown iff the caller exists, the booking exists, and the caller is its booker or the item's owner; otherwise the matching error |
| BookingService.StateValueOf | server/src/main/java/ru/practicum/shareit/enums/StateEnum.java:3-10 | `valueOf`: a name maps to the state whose name it is, and to none when no state has it |
| BookingService.RowsForBooker | src/main/java/ru/practicum/shareit/booking/service/BookingServiceImpl.java:54-98 | the rows the switch selects for a booker are exactly the booker's bookings in that state |
| BookingService.RowsForOwner | src/main/java/ru/practicum/shareit/booking/service/BookingServiceImpl.java:111-155 | the same over the bookings of the owner's items |
| BookingService.Listing | src/main/java/ru/practicum/shareit/booking/service/BookingServiceImpl.java:56-61 | exactly the page of the start-descending rows: its length is the page length and its k-th entry is the DTO of row index * size + k |
| BookingService.ListingFromRowsInOrder | src/main/java/ru/practicum/shareit/booking/service/BookingServiceImpl.java:56-61 | every listed DTO is that of one of the rows, and the listing is ordered by start, latest first |
| BookingService.ListingIsComplete | src/main/java/ru/practicum/shareit/booking/service/BookingServiceImpl.java:92-98 | a first page at least as large as the rows lists every row |
| BookingService.EveryRowOnSomePage | src/main/java/ru/practicum/shareit/booking/service/BookingServiceImpl.java:56-61 | every row is listed on the page of some valid offset |
| BookingService.FindAllForUser | src/main/java/ru/practicum/shareit/booking/service/BookingServiceImpl.java:48-103 | errors in order (unknown user, invalid page, unknown state); on success exactly `Listing` of the booker's rows in that state for page from / size |
| BookingService.FindAllForOwner | src/main/java/ru/practicum/shareit/booking/service/BookingServiceImpl.java:105-160 | the same for the bookings of the caller's items |
| BookingService.FirstPageListsEveryBooking | src/main/java/ru/practicum/shareit/booking/service/BookingServiceImpl.java:48-103 | with a large enough first page, every booking of the user in the state is listed |
| BookingService.FirstPageListsEveryOwnedBooking | src/main/java/ru/practicum/shareit/booking/service/BookingServiceImpl.java:105-160 | the same for an owner |
| BookingService.EveryBookingOnSomePage | src/main/java/ru/practicum/shareit/booking/service/BookingServiceImpl.java:48-103 | every booking of the user in the state is listed by `findAllForUser` for some offset |
| BookingService.EveryOwnedBookingOnSomePage | src/main/java/ru/practicum/shareit/booking/service/BookingServiceImpl.java:105-160 | the same for the bookings of an owner's items |
| BookingService.TimeStatesDisjoint | src/main/java/ru/practicum/shareit/booking/service/BookingServiceImpl.java:62-83 | PAST, CURRENT and FUTURE never hold together for a well-formed booking |
| BookingRepository.FindBookingsAtSameTime | server/src/main/java/ru/practicum/shareit/booking/repository/BookingRepository.java:37-45 | exactly the bookings of the item with the status whose window meets the given one by the query's three conditions, kept in the table's increasing id order |
| BookingRepository.AtSameTimeIsIntersection | server/src/main/java/ru/practicum/shareit/booking/repository/BookingRepository.java:37-41 | for well-formed windows the condition is exactly closed-interval intersection |
| BookingRepository.AtSameTimeSymmetric | server/src/main/java/ru/practicum/shareit/booking/repository/BookingRepository.java:37-41 | hence it does not matter which window is the stored one |
| BookingRepository.TouchingWindowsConflict | server/src/main/java/ru/practicum/shareit/booking/repository/BookingRepository.java:39-40 | `between` is inclusive: a window starting when another ends conflicts |
| BookingRepository.OtherStatusNeverConflicts | server/src/main/java/ru/practicum/shareit/booking/repository/BookingRepository.java:38 | a booking of another status never appears in the overlap result |
| BookingRepository.SameTimeScenario | server/src/main/java/ru/practicum/shareit/booking/repository/BookingRepository.java:37-45 | an illustration of the all-inputs lemmas on a one-row table: a window after an approved booking finds nothing; one starting inside it finds that booking |
| BookingRepository.FindAllByBookerId | server/src/main/java/ru/practicum/shareit/booking/repository/BookingRepository.java:15 | exactly the booker's bookings, kept in the table's increasing id order |
| BookingRepository.FindByBookerIdAndItemIdAndStatusAndStartIsBefore | server/src/main/java/ru/practicum/shareit/booking/repository/BookingRepository.java:17-20 | exactly booker = u, item = i, status = s and start < t, kept in the table's increasing id order |
| BookingRepository.FindAllByBookerIdAndStatus | server/src/main/java/ru/practicum/shareit/booking/repository/BookingRepository.java:22-24 | exactly the booker's bookings with the status, kept in the table's increasing id order |
| BookingRepository.FindAllByItemOwner | server/src/main/java/ru/practicum/shareit/booking/repository/BookingRepository.java:26-28 | exactly the bookings whose item's owner has the id, kept in the table's increasing id order |
| BookingRepository.UnknownOwnerHasNoBookings | server/src/main/java/ru/practicum/shareit/booking/repository/BookingRepository.java:26-28 | an owner of no booked item gets an empty result |
| BookingRepository.FindAllByItemOwnerAndStatus | server/src/main/java/ru/practicum/shareit/booking/repository/BookingRepository.java:30-35 | exactly the owner's bookings with the status, kept in the table's increasing id order |
| BookingRepository.FindAllByItemIdAndStatusOrderByStartDesc | server/src/main/java/ru/practicum/shareit/booking/repository/BookingRepository.java:47-54 | exactly the item's bookings with either status, in start-descending order |
| BookingRepository.FindAllByBookerIdAndEndBefore | server/src/main/java/ru/practicum/shareit/booking/repository/BookingRepository.java:56 | exactly the booker's bookings ended before now, kept in the table's increasing id order |
| BookingRepository.FindAllByBookerIdAndStartAfter | server/src/main/java/ru/practicum/shareit/booking/repository/BookingRepository.java:58 | exactly the booker's bookings starting after now, kept in the table's increasing id order |
| BookingRepository.FindByBookerIdAndStartIsBeforeAndEndIsAfter | server/src/main/java/ru/practicum/shareit/booking/repository/BookingRepository.java:60-63 | exactly the booker's bookings started before and ending after now, kept in the table's increasing id order |
| BookingRepository.FindByItemOwnerIdAndEndIsBefore | server/src/main/java/ru/practicum/shareit/booking/repository/BookingRepository.java:65 | exactly the owner's bookings ended before now, kept in the table's increasing id order |
| BookingRepository.FindByItemOwnerIdAndStartIsAfter | server/src/main/java/ru/practicum/shareit/booking/repository/BookingRepository.java:67 | exactly the owner's bookings starting after now, kept in the table's increasing id order |
| BookingRepository.FindByItemOwnerIdAndStartIsBeforeAndEndIsAfter | server/src/main/java/ru/practicum/shareit/booking/repository/BookingRepository.java:69-72 | exactly the owner's current bookings, kept in the table's increasing id order |
| Sequences.IncreasingDeterminedByElements | server/src/main/java/ru/practicum/shareit/booking/repository/BookingRepository.java:15-72 | two sequences in strictly increasing id order with the same elements are equal, so the filters' contracts (exact elements, id order) determine their results |
| BookingRepository.Paged | src/main/java/ru/practicum/shareit/booking/service/BookingServiceImpl.java:51 | exactly page p of the start-descending rows, with start non-increasing |
| Paging.JavaDiv | src/main/java/ru/practicum/shareit/booking/service/BookingServiceImpl.java:51 | truncating division: agrees with `/` on non-negative operands, and is negative only for a dividend at or below -size |
| Paging.Wrap32 | src/main/java/ru/practicum/shareit/booking/service/BookingServiceImpl.java:51 | Java `int` wrap-around: the result is a 32-bit value and a 32-bit value is kept |
| Paging.PageRequestOf | src/main/java/ru/practicum/shareit/booking/service/BookingServiceImpl.java:51 | a zero size throws the division error; for 32-bit operands success iff size > 0 and from > -size, with the wrapped truncating quotient as index; a non-negative from gives index from / size; from <= -size gives the negative-index error |
| Paging.NegativeSizeErrors | src/main/java/ru/practicum/shareit/booking/service/BookingServiceImpl.java:51 | a negative size fails: MIN_VALUE / -1 wraps to a negative index, other negative quotients give the negative-index error, and the rest the size error |
| Paging.PageOfFrom | src/main/java/ru/practicum/shareit/booking/service/BookingServiceImpl.java:51 | an offset that is a multiple of the size, index * size, asks exactly for page index |
| Paging.PageLength | src/main/java/ru/practicum/shareit/booking/service/BookingServiceImpl.java:51 | a page holds at most `size` rows, all within the rows, and is empty past their end |
| Paging.PageOf | src/main/java/ru/practicum/shareit/booking/service/BookingServiceImpl.java:51 | exactly the page: `PageLength` entries, the k-th being the row at index * size + k |
| Paging.OnSomePage | src/main/java/ru/practicum/shareit/booking/service/BookingServiceImpl.java:51 | every row is on the page of some valid offset below the row count |
| BookingMapper.ToBooking | src/main/java/ru/practicum/shareit/booking/mapper/BookingMapper.java:13-22 | the booking takes its id, window and status from the DTO, and the item and booker given |
| BookingMapper.ToBookingDto | src/main/java/ru/practicum/shareit/booking/mapper/BookingMapper.java:25-34 | the DTO takes the booking's id, window and status, and the ids of its item and booker |
| BookingMapper.ToBookingOutDto | src/main/java/ru/practicum/shareit/booking/mapper/BookingMapper.java:36-45 | the out-DTO takes the booking's id, window and status, and carries its item and booker |
| BookingMapper.DtoRoundTrip | src/main/java/ru/practicum/shareit/booking/mapper/BookingMapper.java:13-34 | DTO → booking → DTO gives back the DTO, with the item and booker ids filled in |
| BookingMapper.BookingRoundTrip | src/main/java/ru/practicum/shareit/booking/mapper/BookingMapper.java:13-34 | booking → DTO → booking, with its own item and booker, gives back the booking |
| BookingMapper.ToBookingDtoInjective | src/main/java/ru/practicum/shareit/booking/mapper/BookingMapper.java:25-34 | two bookings with the same item and booker and equal DTOs are equal |
| BookingMapper.OutDtoKeepsFields | src/main/java/ru/practicum/shareit/booking/mapper/BookingMapper.java:36-45 | the out-DTO keeps id, window and status |
| Database.LoadItem | src/main/java/ru/practicum/shareit/item/model/Item.java:31-36 | the lazy `owner` association: an item row loads with the stored user its owner key names, and saving that item gives back the same row |
| Database.LoadBooking | src/main/java/ru/practicum/shareit/booking/model/Booking.java:37-42 | the lazy `item` and `booker` associations: a booking loads with the item and user its keys name as they are stored now, its own columns unchanged |
| Database.LoadComment | src/main/java/ru/practicum/shareit/item/comment/model/Comment.java:28-33 | the lazy `item` and `user` associations: a comment loads with the item and author its keys name as they are stored now |
| Database.FindLoadedItem | src/main/java/ru/practicum/shareit/booking/service/BookingServiceImpl.java:210 | `findById` over the loaded items finds an item exactly when its row is stored, at the row's position, loaded with its current owner |
| Database.FindItem | src/main/java/ru/practicum/shareit/booking/service/BookingServiceImpl.java:210 | `findById`: a stored item with that id, or none exactly when no item has it |
| Database.LookupBooking | src/main/java/ru/practicum/shareit/booking/service/BookingServiceImpl.java:215 | `findById`: the position of a booking with that id, or none exactly when no booking has it |
| ItemService.CheckOwner | src/main/java/ru/practicum/shareit/item/service/ItemServiceImpl.java:187-196 | user, item and ownership in that order; success gives the stored item, loaded with its current owner, owned by the caller |
| ItemService.CreateItem | src/main/java/ru/practicum/shareit/item/service/ItemServiceImpl.java:45-49 | unknown user: nothing stored; otherwise the item from the DTO (its id, fields, the caller as owner) is saved as a row holding the owner's id: it replaces the stored item with that id if there is one, and is otherwise appended under the next id; the returned DTO is that of the item `findById` now loads under its id |
| ItemService.SaveItem | src/main/java/ru/practicum/shareit/item/service/ItemServiceImpl.java:48 | `save` as a JPA merge: an item whose id is stored replaces that row and the counter is kept; any other (a null id included) is appended under the next identity value; the store stays valid and `findById` of the saved id loads the saved item |
| ItemService.Patch | src/main/java/ru/practicum/shareit/item/service/ItemServiceImpl.java:54-69 | a blank name, then a blank description, is refused with its message; otherwise the present fields replace the item's and the rest is kept |
| ItemService.PatchIdempotent | src/main/java/ru/practicum/shareit/item/service/ItemServiceImpl.java:54-69 | patching twice with the same DTO is patching once |
| ItemService.EmptyPatchKeepsItem | src/main/java/ru/practicum/shareit/item/service/ItemServiceImpl.java:54-69 | a DTO with no fields leaves the item as it is |
| ItemService.UpdateItem | src/main/java/ru/practicum/shareit/item/service/ItemServiceImpl.java:52-70 | ownership failure or a refused patch changes nothing; otherwise the item's row is replaced in place by the row of its patch, and `findById` then loads the patched item |
| ItemService.PatchFields | src/main/java/ru/practicum/shareit/item/service/ItemServiceImpl.java:54-68 | the field-by-field updates of the stored item compute `Patch` |
| ItemService.ReplaceItem | src/main/java/ru/practicum/shareit/item/service/ItemServiceImpl.java:69 | `save` of a stored item: only the row with its id is replaced and the store stays valid |
| ItemService.DeleteItem | src/main/java/ru/practicum/shareit/item/service/ItemServiceImpl.java:98-101 | only the owner deletes; an item a booking or comment still names is refused with a data-integrity violation and stays; otherwise exactly that item's row leaves the table, the others keep their order, and no stored item has that id any more |
| ItemService.RemoveItemRow | src/main/java/ru/practicum/shareit/item/service/ItemServiceImpl.java:100 | `deleteById` of an unreferenced item: its row is cut out, the store stays valid, and exactly the rows with other ids remain |
| ItemService.GetByText | src/main/java/ru/practicum/shareit/item/service/ItemServiceImpl.java:104-112 | a blank text finds nothing; otherwise the converted items matching the search, and every matching item |
| ItemService.SearchDtos | src/main/java/ru/practicum/shareit/item/service/ItemServiceImpl.java:108-111 | every DTO is that of an item matching the search, and every matching item's DTO is listed |
| ItemService.MayCommentQuery | src/main/java/ru/practicum/shareit/item/service/ItemServiceImpl.java:118-121 | the repository query is non-empty exactly when the user has an approved booking of the item started before now |
| ItemService.CommentGuards | src/main/java/ru/practicum/shareit/item/service/ItemServiceImpl.java:116-129 | the three checks of `createComment` in order, each with its error; success exactly when all pass, giving the stored author and the item |
| ItemService.CreateComment | src/main/java/ru/practicum/shareit/item/service/ItemServiceImpl.java:115-130 | user, item and past booking checked in order, nothing saved on failure; on success the comment (the DTO id and text, the item, the author, creation time now) is saved as a row of keys, replacing the stored comment with that id if there is one and otherwise appended under the next id; the returned DTO is then among the item's comments |
| ItemService.SaveComment | src/main/java/ru/practicum/shareit/item/service/ItemServiceImpl.java:126 | `save` as a JPA merge: a comment whose id is stored replaces that row and the counter is kept; any other is appended under the next identity value; the store stays valid and the saved comment's row is stored |
| ItemService.GetComments | src/main/java/ru/practicum/shareit/item/service/ItemServiceImpl.java:146-157 | exactly the item's comments, converted |
| ItemService.LastAndNext | src/main/java/ru/practicum/shareit/item/service/ItemServiceImpl.java:159-185 | no bookings gives an empty list; bookings none of which has started throw the null-pointer error; otherwise the first started booking, then the last future booking listed before it exactly when there is one |
| ItemService.LastIsLatestStarted | src/main/java/ru/practicum/shareit/item/service/ItemServiceImpl.java:159-185 | over start-descending bookings the "last" one is the latest that started before now |
| ItemService.NextIsEarliestFuture | src/main/java/ru/practicum/shareit/item/service/ItemServiceImpl.java:159-185 | the "next" one, when present, is the earliest starting after now |
| ItemService.LastAndNextAreLatestAndEarliest | src/main/java/ru/practicum/shareit/item/service/ItemServiceImpl.java:159-185 | over start-descending bookings the first entry is a started booking with the latest start, and a second entry exists iff some booking starts after now and is one with the earliest such start |
| ItemService.GetLastAndNextBooking | src/main/java/ru/practicum/shareit/item/service/ItemServiceImpl.java:159-185 | the scan over the item's approved or waiting bookings computes `LastAndNext` |
| ItemService.ScanLastAndNext | src/main/java/ru/practicum/shareit/item/service/ItemServiceImpl.java:163-184 | the loop with its early exit computes `LastAndNext` |
| ItemService.Decorated | src/main/java/ru/practicum/shareit/item/service/ItemServiceImpl.java:132-144 | the decorated DTO keeps every field of the item's DTO and gains the item's comments; a non-owner gets nothing more; only the owner can meet the null-pointer error |
| ItemService.SetCommentsAndBookings | src/main/java/ru/practicum/shareit/item/service/ItemServiceImpl.java:132-144 | the in-place updates compute `Decorated`: comments for everyone, last and next bookings for the owner |
| ItemService.GetItemById | src/main/java/ru/practicum/shareit/item/service/ItemServiceImpl.java:73-80 | unknown user or item is an error; otherwise the result is `Decorated` of the item's DTO: its comments, and for its owner the last and next bookings (or the null-pointer error) |
| ItemService.GetAllByUserId | src/main/java/ru/practicum/shareit/item/service/ItemServiceImpl.java:83-95 | unknown user is an error; otherwise one DTO per owned item, in order, each `Decorated`; a failure is the null-pointer error of one of the items |
| ItemService.DecorateAll | src/main/java/ru/practicum/shareit/item/service/ItemServiceImpl.java:89-93 | one DTO per owned item, in order, each `Decorated` of the item's DTO: its comments and, for the owner, its bookings; a failure is the null-pointer error of some item |
| ItemMapper.ToItemDto | src/main/java/ru/practicum/shareit/item/mapper/ItemMapper.java:14-23 | copies id, name, description, availability and owner; request, bookings and comments stay unset |
| ItemMapper.ToItem | src/main/java/ru/practicum/shareit/item/mapper/ItemMapper.java:25-34 | copies the DTO's fields, takes the owner from its argument, and sets no request |
| ItemMapper.ItemDtoRoundTrip | src/main/java/ru/practicum/shareit/item/mapper/ItemMapper.java:14-34 | DTO → item → DTO keeps id, name, description and availability, with the given owner |
| ItemMapper.ItemRoundTrip | src/main/java/ru/practicum/shareit/item/mapper/ItemMapper.java:14-34 | item → DTO → item gives back the item without its request |
| ItemMapper.ToItemWithBookingComments | src/main/java/ru/practicum/shareit/item/mapper/ItemMapper.java:36-49 | the item's fields; bookings[0] is last, bookings[1] is next; the comments as given |
| CommentMapper.ToCommentDto | src/main/java/ru/practicum/shareit/item/comment/mapper/CommentMapper.java:13-21 | id, text, item, creation time and the author's name |
| CommentMapper.ToComment | src/main/java/ru/practicum/shareit/item/comment/mapper/CommentMapper.java:23-32 | id and text from the DTO; item, author and creation time from the arguments |
| CommentMapper.CommentDtoRoundTrip | src/main/java/ru/practicum/shareit/item/comment/mapper/CommentMapper.java:13-32 | DTO → comment → DTO keeps id and text and fills the rest from the arguments |
| CommentMapper.CommentRoundTrip | src/main/java/ru/practicum/shareit/item/comment/mapper/CommentMapper.java:13-32 | comment → DTO → comment, with its own author, item and time, gives back the comment |
| ItemRepository.Search | src/main/java/ru/practicum/shareit/item/repository/ItemRepository.java:15-19 | exactly the available items whose lower-cased name or description contains the lower-cased text |
| ItemRepository.SearchPage | src/main/java/ru/practicum/shareit/item/repository/ItemRepository.java:19 | exactly page p of the search result |
| ItemRepository.SearchIgnoresCase | src/main/java/ru/practicum/shareit/item/repository/ItemRepository.java:15-18 | searching for a text or its lower-cased form finds the same items |
| ItemRepository.SearchFindsByName | src/main/java/ru/practicum/shareit/item/repository/ItemRepository.java:15-18 | an available item whose name contains the text in any case is found |
| ItemRepository.FindAllByOwnerId | src/main/java/ru/practicum/shareit/item/repository/ItemRepository.java:13 | exactly the owner's items |
| ItemRepository.UnknownOwnerHasNoItems | src/main/java/ru/practicum/shareit/item/repository/ItemRepository.java:13 | an id owning nothing gets an empty result |
| ItemRepository.FindAllByRequestId | src/main/java/ru/practicum/shareit/item/repository/ItemRepository.java:21 | exactly the items answering the request |
| ItemRepository.FindByRequestIdIn | src/main/java/ru/practicum/shareit/item/repository/ItemRepository.java:24 | exactly the items whose request id is in the list |
| ItemRepository.RequestIdInSingleton | src/main/java/ru/practicum/shareit/item/repository/ItemRepository.java:21-24 | an `IN` list of one id is the single-id lookup |
| ItemStorage.RemoveFirst | src/main/java/ru/practicum/shareit/item/storage/ItemStorageInMemory.java:37 | `List.remove(Object)`: one occurrence fewer when present, unchanged otherwise |
| ItemStorage.RemoveFirstKeeps | src/main/java/ru/practicum/shareit/item/storage/ItemStorageInMemory.java:36-39 | removing from an increasing id list keeps it increasing and removes the id |
| ItemStorage.RemoveFirstKeepsOthers | src/main/java/ru/practicum/shareit/item/storage/ItemStorageInMemory.java:37 | removing an id keeps every other id of the list |
| ItemStorage.CapitalTextNeverMatches | src/main/java/ru/practicum/shareit/item/storage/ItemStorageInMemory.java:58-64 | only the item's side is lower-cased, so a text with a capital letter matches nothing |
| ItemStorage.ItemStorageInMemory.constructor | src/main/java/ru/practicum/shareit/item/storage/ItemStorageInMemory.java:13-15 | empty maps and counter 1; the lists are exact |
| ItemStorage.ItemStorageInMemory.CreateItem | src/main/java/ru/practicum/shareit/item/storage/ItemStorageInMemory.java:17-24 | the item gets the counter as id, is stored and its id appended to its owner's list, and can then be read back; the store stays well-formed in any state, and exact lists stay exact |
| ItemStorage.ItemStorageInMemory.UpdateItem | src/main/java/ru/practicum/shareit/item/storage/ItemStorageInMemory.java:26-33 | a stored id is replaced, an unknown one is "Вещь с айди %d не найдена."; the lists are untouched, so the store stays well-formed in any state, and exact lists stay exact when the owner is unchanged |
| ItemStorage.ItemStorageInMemory.DeleteItem | src/main/java/ru/practicum/shareit/item/storage/ItemStorageInMemory.java:36-39 | a user without a list throws the null-pointer error; otherwise the id leaves that user's list and the item map, whoever owns it; the store stays well-formed, and exact lists stay exact when the caller owns the item |
| ItemStorage.DeleteKeepsConsistent | src/main/java/ru/practicum/shareit/item/storage/ItemStorageInMemory.java:36-39 | removing an item of the user from the map and from the user's list keeps every list increasing and pointing at that owner's stored items |
| ItemStorage.DeleteKeepsWellFormed | src/main/java/ru/practicum/shareit/item/storage/ItemStorageInMemory.java:36-39 | deleting any id through any user's list keeps the store well-formed |
| ItemStorage.NonOwnerDeleteLeavesDanglingId | src/main/java/ru/practicum/shareit/item/storage/ItemStorageInMemory.java:36-39 | a delete through a user who does not own the item leaves its id in the owner's list with the item gone, so the lists are no longer exact |
| ItemStorage.CreateKeepsWellFormed | src/main/java/ru/practicum/shareit/item/storage/ItemStorageInMemory.java:17-24 | storing under the counter and appending the id to the owner's list keeps the store well-formed with the counter moved on |
| ItemStorage.CreateKeepsConsistent | src/main/java/ru/practicum/shareit/item/storage/ItemStorageInMemory.java:17-24 | the same step keeps exact lists exact |
| ItemStorage.OwnedItemsListed | src/main/java/ru/practicum/shareit/item/storage/ItemStorageInMemory.java:50-55 | with exact lists, the items read through an owner's id list include every stored item of that owner |
| ItemStorage.ItemStorageInMemory.GetItemById | src/main/java/ru/practicum/shareit/item/storage/ItemStorageInMemory.java:42-47 | the stored item, or "Вещь с id %d не найдена" |
| ItemStorage.ItemStorageInMemory.GetAllByUserId | src/main/java/ru/practicum/shareit/item/storage/ItemStorageInMemory.java:50-55 | one entry per id in the user's list, in increasing id order: the stored item, or null for an id no longer stored; none for an unknown user; with exact lists, exactly the user's stored items and no null |
| ItemStorage.ItemStorageInMemory.GetByText | src/main/java/ru/practicum/shareit/item/storage/ItemStorageInMemory.java:58-64 | exactly the stored items satisfying the store's match |
| UserStorage.UserStorageInMemory.constructor | src/main/java/ru/practicum/shareit/user/storage/UserStorageInMemory.java:15-18 | empty maps and set, counter 1; e-mails distinct and all recorded |
| UserStorage.UserStorageInMemory.CreateUser | src/main/java/ru/practicum/shareit/user/storage/UserStorageInMemory.java:21-33 | a taken DTO id is refused unchanged; otherwise the user is stored under the counter with its e-mail recorded, whether or not another user has it, and can be read back; the store stays valid in any state, and distinct e-mails stay distinct when the new one is unrecorded |
| UserStorage.UserStorageInMemory.UpdateUser | src/main/java/ru/practicum/shareit/user/storage/UserStorageInMemory.java:36-50 | an unknown id is not-found; otherwise the user is replaced and a changed e-mail swaps old for new in both e-mail records; the store stays valid in any state, and consistent unless the new e-mail is another user's |
| UserStorage.UserStorageInMemory.DeleteUser | src/main/java/ru/practicum/shareit/user/storage/UserStorageInMemory.java:53-61 | an unknown id is not-found; otherwise the user leaves both maps and its e-mail leaves `emails`, even when another user shares it; the store stays valid, and consistent when it was |
| UserStorage.UserStorageInMemory.GetAllUsers | src/main/java/ru/practicum/shareit/user/storage/UserStorageInMemory.java:64-69 | an empty store is "Список пользователей пуст."; otherwise exactly the stored users |
| UserStorage.UserStorageInMemory.GetUserById | src/main/java/ru/practicum/shareit/user/storage/UserStorageInMemory.java:72-77 | the stored user, or "Пользователь с айди %d не найден." |
| UserStorage.UserStorageInMemory.CheckEmail | src/main/java/ru/practicum/shareit/user/storage/UserStorageInMemory.java:80-82 | true iff the e-mail is recorded |
| UserStorage.UserStorageInMemory.CheckEmailMeansTaken | src/main/java/ru/practicum/shareit/user/storage/UserStorageInMemory.java:80-82 | a recorded e-mail is some stored user's; in a consistent store the converse holds too |
| UserService.GetUserById | src/main/java/ru/practicum/shareit/user/service/UserServiceImpl.java:35-42 | the stored user, or "Пользователь с айди %d не найден." |
| UserService.CreateUser | src/main/java/ru/practicum/shareit/user/service/UserServiceImpl.java:45-52 | an e-mail already stored is refused and no user is added, though the failed insert has used up the next identity value; otherwise the user is stored under the next id; e-mails stay unique |
| UserService.Patched | src/main/java/ru/practicum/shareit/user/service/UserServiceImpl.java:66-96 | unknown id, blank name, then blank e-mail are refused in order; a new e-mail held by another user is refused with already-exists naming that e-mail; success exactly when none of these applies, and then the present fields replace the stored ones |
| UserService.OwnEmailIsAccepted | src/main/java/ru/practicum/shareit/user/service/UserServiceImpl.java:84-90 | resubmitting one's own e-mail is not a conflict |
| UserService.PatchIdempotent | src/main/java/ru/practicum/shareit/user/service/UserServiceImpl.java:66-96 | the same patch applied to its own result changes nothing more |
| UserService.PatchUser | src/main/java/ru/practicum/shareit/user/service/UserServiceImpl.java:66-96 | computes `Patched`; saves only on success; e-mails stay unique |
| CheckBlank.CheckNotBlank | gateway/src/main/java/ru/practicum/shareit/validation/CheckBlank.java:6-10 | fails iff the string is empty or whitespace, with "<parameter> не может быть пустым" |
| CheckBlank.CheckNotBlankConcat | gateway/src/main/java/ru/practicum/shareit/validation/CheckBlank.java:6-10 | a concatenation is refused exactly when both parts are |
| CheckBlank.VisibleCharacterPasses | gateway/src/main/java/ru/practicum/shareit/validation/CheckBlank.java:6-10 | one non-whitespace character anywhere is enough to pass |
| RequestMapper.ToItemRequest | src/main/java/ru/practicum/shareit/request/mapper/ItemRequestMapper.java:13-19 | description from the DTO, requester and creation time from the arguments, no id |
| RequestMapper.FromOutDto | src/main/java/ru/practicum/shareit/request/mapper/ItemRequestMapper.java:22-28 | description, requester and creation time copied, id dropped |
| RequestMapper.ToItemRequestOutDto | src/main/java/ru/practicum/shareit/request/mapper/ItemRequestMapper.java:30-37 | id, description and creation time; requester and items unset |
| RequestMapper.ToItemRequestOutCreatedDto | src/main/java/ru/practicum/shareit/request/mapper/ItemRequestMapper.java:39-46 | id, description and creation time |
| RequestMapper.RequestRoundTrip | src/main/java/ru/practicum/shareit/request/mapper/ItemRequestMapper.java:22-37 | request → out-DTO → request loses the id and the requester only |
| RequestMapper.OutDtoRoundTrip | src/main/java/ru/practicum/shareit/request/mapper/ItemRequestMapper.java:22-37 | out-DTO → request → out-DTO keeps description and creation time |
| RequestMapper.CreatedAnswerKeepsInput | src/main/java/ru/practicum/shareit/request/mapper/ItemRequestMapper.java:13-46 | a saved new request answers with its id, the client's description and the given time |
| RequestService.CheckRequest | src/main/java/ru/practicum/shareit/request/service/ItemRequestServiceImpl.java:75-78 | a stored request with that id, or "Запрос с id %d не найден" exactly when none has it |
| RequestService.FindAllByRequesterId | src/main/java/ru/practicum/shareit/request/repository/ItemRequestRepository.java:16 | exactly the requests opened by the user |
| RequestService.FindByRequesterIdNot | src/main/java/ru/practicum/shareit/request/repository/ItemRequestRepository.java:18 | exactly the requests with a requester other than the user |
| RequestService.ToItemOutDto | src/main/java/ru/practicum/shareit/request/service/ItemRequestServiceImpl.java:82-83 | the item's fields with the id of the request it answers |
| RequestService.RequestIds | src/main/java/ru/practicum/shareit/request/service/ItemRequestServiceImpl.java:81 | exactly the ids the listed DTOs carry |
| RequestService.Group | src/main/java/ru/practicum/shareit/request/service/ItemRequestServiceImpl.java:91 | exactly the offered items answering one request, in list order |
| RequestService.AttachChangesOnlyItems | src/main/java/ru/practicum/shareit/request/service/ItemRequestServiceImpl.java:85-93 | attaching changes a DTO's `items` and nothing else |
| RequestService.NoItemsMeansEmptyLists | src/main/java/ru/practicum/shareit/request/service/ItemRequestServiceImpl.java:85-87 | with no item offered at all, every request lists an empty list |
| RequestService.RequestWithoutItemsKeepsNull | src/main/java/ru/practicum/shareit/request/service/ItemRequestServiceImpl.java:85-93 | when some items are offered, a request none answers keeps `items` unset |
| RequestService.AttachedItemsOfLast | src/main/java/ru/practicum/shareit/request/service/ItemRequestServiceImpl.java:88-93 | the DTO `requests.put` keeps for an id lists exactly that id's group |
| RequestService.DistinctIdsAreLast | src/main/java/ru/practicum/shareit/request/service/ItemRequestServiceImpl.java:92 | with distinct ids every DTO is the one the map keeps |
| RequestService.GroupByRequest | src/main/java/ru/practicum/shareit/request/service/ItemRequestServiceImpl.java:91 | the loop builds a map whose keys are exactly the answered ids, each holding its group in order |
| RequestService.IndexById | src/main/java/ru/practicum/shareit/request/service/ItemRequestServiceImpl.java:92 | the loop maps exactly the present ids, each to the last DTO carrying it |
| RequestService.LastIsUnique | src/main/java/ru/practicum/shareit/request/service/ItemRequestServiceImpl.java:92 | only one position can be the last with an id |
| RequestService.OfferedBelongToListed | src/main/java/ru/practicum/shareit/request/service/ItemRequestServiceImpl.java:82-93 | every answered id belongs to a listed DTO, so `requests.get(key)` is never null |
| RequestService.ClearItems | src/main/java/ru/practicum/shareit/request/service/ItemRequestServiceImpl.java:86 | every DTO gets an empty list and keeps the rest |
| RequestService.AttachGroups | src/main/java/ru/practicum/shareit/request/service/ItemRequestServiceImpl.java:93 | after the loop over the groups, each last DTO of an answered id holds its group and the others are untouched |
| RequestService.AttachStep | src/main/java/ru/practicum/shareit/request/service/ItemRequestServiceImpl.java:93 | one more `setItems` attaches exactly that key's group to its last DTO and leaves every other DTO as it was |
| RequestService.AddItemsToRequests | src/main/java/ru/practicum/shareit/request/service/ItemRequestServiceImpl.java:80-94 | the in-place updates leave the DTO array equal to `Attached` of the offered items |
| RequestService.AttachOffered | src/main/java/ru/practicum/shareit/request/service/ItemRequestServiceImpl.java:80-94 | the loop over a fixed list of stored items: the DTO array ends equal to `Attached` of the items offered to those requests |
| RequestService.ListWithItems | src/main/java/ru/practicum/shareit/request/service/ItemRequestServiceImpl.java:36-38 | the requests mapped to DTOs in a new list and passed through `addItemsToRequests` give `Attached` of their offered items |
| RequestService.AttachedItemsAre | src/main/java/ru/practicum/shareit/request/service/ItemRequestServiceImpl.java:80-94 | a listed request lists every stored item answering it, and nothing else |
| RequestService.UsersRequests | src/main/java/ru/practicum/shareit/request/service/ItemRequestServiceImpl.java:34-40 | one answer per request of the user, in table order, each its DTO with items attached |
| RequestService.UsersRequestsListTheirItems | src/main/java/ru/practicum/shareit/request/service/ItemRequestServiceImpl.java:34-40 | in a valid store each of the user's requests lists exactly the items answering it |
| RequestService.GetAllUsersRequests | src/main/java/ru/practicum/shareit/request/service/ItemRequestServiceImpl.java:34-40 | unknown user is not-found; otherwise `UsersRequests` |
| RequestService.OthersRequestsPage | src/main/java/ru/practicum/shareit/request/service/ItemRequestServiceImpl.java:45-47 | exactly page p of the other users' requests sorted newest first |
| RequestService.FirstPageHoldsAllOthers | src/main/java/ru/practicum/shareit/request/service/ItemRequestServiceImpl.java:45-47 | a large enough first page holds every other user's request |
| RequestService.EveryOtherRequestOnSomePage | src/main/java/ru/practicum/shareit/request/service/ItemRequestServiceImpl.java:45-47 | every request of another user is on the page of some valid offset |
| RequestService.AllRequests | src/main/java/ru/practicum/shareit/request/service/ItemRequestServiceImpl.java:43-50 | one DTO per request on that page, in order, each the request's DTO apart from its attached items; creation time non-increasing |
| RequestService.AttachedKeepsRows | src/main/java/ru/practicum/shareit/request/service/ItemRequestServiceImpl.java:43-50 | attaching items to requests' DTOs changes nothing but their items, and keeps the creation order of the requests |
| RequestService.AllRequestsListTheirItems | src/main/java/ru/practicum/shareit/request/service/ItemRequestServiceImpl.java:43-50 | in a valid store each listed request is another user's stored request and lists exactly the items answering it |
| RequestService.GetAllRequests | src/main/java/ru/practicum/shareit/request/service/ItemRequestServiceImpl.java:43-50 | unknown user, then an invalid page, are errors; otherwise `AllRequests` for page from / size |
| RequestService.GetOneRequest | src/main/java/ru/practicum/shareit/request/service/ItemRequestServiceImpl.java:53-61 | the request is checked before the user; success is the request's DTO listing exactly the items answering it |
| RequestService.CreateRequest | src/main/java/ru/practicum/shareit/request/service/ItemRequestServiceImpl.java:64-68 | unknown user stores nothing; otherwise the request with the caller, now and the next id is appended, answered, and found by its id |

## Left out

- Controllers, gateway clients, error handlers and the annotation-driven validation (`@NotBlank`, `@Positive`, `@Valid`) are HTTP plumbing. Where that validation guarantees a field, the model requires it instead.
- `LocalDateTime.now()` is a parameter. One instant stands for the separate clock reads inside one call.
- `toLowerCase` covers Latin and basic Cyrillic capitals only. `isBlank` uses the whitespace set of `Character.isWhitespace`. Full Unicode case folding is not modelled.
- `LIKE` wildcards typed into a search text are matched literally.
- Database transactions, concurrency, and uniqueness enforced by the schema are not modelled. The unique e-mail column appears only as an invariant of `Database.Valid`.
- The `ItemOutDto` mapping used by the item-request service is not part of this model. `RequestService.ToItemOutDto` assumes it copies the item's fields and its request id.
- `UserMapper`, `UserRepository` and `toItemOutDto` for bookings and comments are not part of this model. Users and items are carried as records rather than as their DTOs.
- `ItemServiceImpl.java:122` calls a two-argument `toComment` that the mapper here does not have. The model uses the four-argument mapper, with the current instant as the creation time.
- The item service calls `search` and `findAllByOwner_Id` without a `Pageable`, so the model uses the unpaged queries there.
- `UserServiceImpl.getAllUsers`, `updateUser` and `deleteUser` only delegate to the repository, so they are not modelled separately. With the foreign keys modelled, a `deleteUser` of a user that an item, booking or comment still names would be refused like `ItemService.DeleteItem`.
- ItemService.DeleteItem: assumes the join columns are foreign keys without `ON DELETE CASCADE`, as the mappings declare no cascade. The schema is not part of this model, so a schema that cascades would delete the item's bookings and comments instead of refusing.
- A request's `requester` is carried as a record copy rather than as a key. Only its id is read, and it is never updated, so the copy and a lazy reference agree. An item carries its request as the request's id, the key column.
- UserService.CreateUser: the identity value drawn by a refused insert models a database `IDENTITY` column, which does not roll back. A sequence that did roll back would leave the counter unchanged.
- UserService.CreateUser: requires a name and an e-mail. It stores the user under a fresh id and ignores any id in the DTO: `UserMapper` is not part of this model, so whether that id reaches the merging `save` is not known here.
- UserService.CreateUser: assumes the unique-constraint failure reaches the service as Hibernate's `ConstraintViolationException`, which the catch at `UserServiceImpl.java:48` expects. If Spring's repository exception translation wraps it as `DataIntegrityViolationException` first, the duplicate e-mail escapes as that exception instead of already-exists.
- UserStorage.UserStorageInMemory.CreateUser: requires a name and an e-mail, because `User` holds strings. A null e-mail, which a `HashSet` would accept, is not modelled.
- ItemService.CreateItem: requires name, description and availability, which the create-group validation of `ItemDto` guarantees. An absent `available` would fail to unbox.
- BookingService.CreateGuards: the owner test at `BookingServiceImpl.java:167` is `User.equals`, which `User` does not override, so it is object identity. The model compares ids. The two agree when the item's owner and the caller are the same managed instance, as within one persistence context, and not otherwise.
- CommentMapper.ToComment: requires the text, which the comment DTO's validation guarantees.
- The order in which `HashMap.forEach` visits the groups is left open: the loop picks any remaining key. Each group goes to a different DTO, so the result does not depend on it.
- The DB's order among rows with equal sort keys is unspecified. The model keeps table order.

Where the description of the system and the code differ, the model follows the code:
- A booking that was approved can be rejected, and a rejected one approved (`BookingServiceImpl.java:190-200`; see `DecisionsCanBeReversed`).
- Approving a booking does not re-check overlap with other approved bookings.
- The in-memory store's search lower-cases the item's name and description but not the search text (`ItemStorageInMemory.java:58-64`). A text with a capital letter therefore matches nothing there (`CapitalTextNeverMatches`). The JPA query lower-cases both sides (`SearchIgnoresCase`).
