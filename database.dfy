/** The relational store behind the JPA repositories: one table per entity,
    in insertion order, and the identity counter of each table. A row holds
    the ids of the rows it refers to (its foreign keys); the entities the
    services work with are loaded from the current rows when they are read. */
module Database {
  import opened Wrappers
  import opened Domain
  import opened Sequences

  function ItemKey(i: ItemRow): int { i.id }
  function BookingKey(b: BookingRow): int { b.id }
  function CommentKey(c: CommentRow): int { c.id }
  function RequestKey(r: ItemRequest): int { if r.id.Some? then r.id.value else 0 }

  /** The key of a loaded item. */
  function EntityKey(i: Item): int { i.id }

  // ------------------------------------------------------------ writing

  /** The columns an item is saved as: its owner becomes `OWNER_ID`. */
  function ItemRowOf(i: Item): ItemRow
  {
    ItemRow(i.id, i.name, i.description, i.available, i.owner.id, i.request)
  }

  /** The columns a booking is saved as: `ITEM_ID` and `BOOKER_ID`. */
  function BookingRowOf(b: Booking): BookingRow
  {
    BookingRow(b.id, b.start, b.end, b.item.id, b.booker.id, b.status)
  }

  /** The columns a comment is saved as: `ITEM_ID` and `AUTHOR_ID`. */
  function CommentRowOf(c: Comment): CommentRow
  {
    CommentRow(c.id, c.text, c.item.id, c.user.id, c.created)
  }

  // ------------------------------------------------------------ reading

  /** Some row of the items table has this id. */
  predicate HasItem(items: seq<ItemRow>, id: int)
  {
    exists k :: 0 <= k < |items| && items[k].id == id
  }

  /** Every item's `OWNER_ID` names a stored user. */
  ghost predicate OwnersKnown(users: map<int, User>, items: seq<ItemRow>)
  {
    forall k :: 0 <= k < |items| ==> items[k].ownerId in users
  }

  /** Every booking's `BOOKER_ID` and `ITEM_ID` name stored rows. */
  ghost predicate BookingsLinked(users: map<int, User>, items: seq<ItemRow>, bookings: seq<BookingRow>)
  {
    forall k :: 0 <= k < |bookings| ==> bookings[k].bookerId in users && HasItem(items, bookings[k].itemId)
  }

  /** Every comment's `AUTHOR_ID` and `ITEM_ID` name stored rows. */
  ghost predicate CommentsLinked(users: map<int, User>, items: seq<ItemRow>, comments: seq<CommentRow>)
  {
    forall k :: 0 <= k < |comments| ==> comments[k].userId in users && HasItem(items, comments[k].itemId)
  }

  /** The user a foreign key names. A key naming no stored user, which
      `Database.Valid` rules out, loads as a reference that knows only its
      id, as an uninitialised lazy proxy does. */
  function UserRef(users: map<int, User>, id: int): User
  {
    if id in users then users[id] else User(id, "", "")
  }

  /** An item row with its owner fetched from the users table. */
  function LoadItem(users: map<int, User>, row: ItemRow): (r: Item)
    ensures r.id == row.id && r.available == row.available && r.request == row.request
    ensures row.ownerId in users ==> r.owner == users[row.ownerId] && ItemRowOf(r) == row.(ownerId := users[row.ownerId].id)
  {
    Item(row.id, row.name, row.description, row.available, UserRef(users, row.ownerId), row.request)
  }

  /** The item stored under `id`, loaded; a key naming no stored item (ruled
      out by `Database.Valid`) loads as a reference that knows only its id. */
  function ItemById(users: map<int, User>, items: seq<ItemRow>, id: int): (r: Item)
    ensures r.id == id
    ensures HasItem(items, id) ==> r == LoadItem(users, items[IndexOf(items, id, ItemKey).value])
  {
    match IndexOf(items, id, ItemKey)
    case Some(k) => LoadItem(users, items[k])
    case None => Item(id, "", "", false, User(0, "", ""), None)
  }

  /** A booking row with its item and booker fetched. */
  function LoadBooking(users: map<int, User>, items: seq<ItemRow>, row: BookingRow): (r: Booking)
    ensures r.id == row.id && r.start == row.start && r.end == row.end && r.status == row.status
    ensures r.item == ItemById(users, items, row.itemId) && r.booker == UserRef(users, row.bookerId)
  {
    Booking(row.id, row.start, row.end, ItemById(users, items, row.itemId), UserRef(users, row.bookerId), row.status)
  }

  /** A comment row with its item and author fetched. */
  function LoadComment(users: map<int, User>, items: seq<ItemRow>, row: CommentRow): (r: Comment)
    ensures r.id == row.id && r.text == row.text && r.created == row.created
    ensures r.item == ItemById(users, items, row.itemId) && r.user == UserRef(users, row.userId)
  {
    Comment(row.id, row.text, ItemById(users, items, row.itemId), UserRef(users, row.userId), row.created)
  }

  function LoadItems(users: map<int, User>, rows: seq<ItemRow>): (r: seq<Item>)
    ensures |r| == |rows| && forall k :: 0 <= k < |r| ==> r[k] == LoadItem(users, rows[k])
  {
    seq(|rows|, k requires 0 <= k < |rows| => LoadItem(users, rows[k]))
  }

  function LoadBookings(users: map<int, User>, items: seq<ItemRow>, rows: seq<BookingRow>): (r: seq<Booking>)
    ensures |r| == |rows| && forall k :: 0 <= k < |r| ==> r[k] == LoadBooking(users, items, rows[k])
  {
    seq(|rows|, k requires 0 <= k < |rows| => LoadBooking(users, items, rows[k]))
  }

  function LoadComments(users: map<int, User>, items: seq<ItemRow>, rows: seq<CommentRow>): (r: seq<Comment>)
    ensures |r| == |rows| && forall k :: 0 <= k < |r| ==> r[k] == LoadComment(users, items, rows[k])
  {
    seq(|rows|, k requires 0 <= k < |rows| => LoadComment(users, items, rows[k]))
  }

  /** The users table: each user under its own id, below the counter, and
      no e-mail twice. */
  ghost predicate UsersValid(users: map<int, User>, nextUserId: int)
  {
    && (forall k :: k in users ==> users[k].id == k && 0 < k < nextUserId)
    && (forall a, b :: a in users && b in users && a != b ==> users[a].email != users[b].email)
    && 0 < nextUserId
  }

  ghost predicate ItemsValid(users: map<int, User>, items: seq<ItemRow>, nextItemId: int)
  {
    StrictlyIncreasing(items, ItemKey) && KeysBelow(items, ItemKey, nextItemId) && 0 < nextItemId
    && OwnersKnown(users, items)
  }

  ghost predicate BookingsValid(users: map<int, User>, items: seq<ItemRow>, bookings: seq<BookingRow>, nextBookingId: int)
  {
    StrictlyIncreasing(bookings, BookingKey) && KeysBelow(bookings, BookingKey, nextBookingId) && 0 < nextBookingId
    && (forall i :: 0 <= i < |bookings| ==> bookings[i].status.Some?)
    && BookingsLinked(users, items, bookings)
  }

  ghost predicate CommentsValid(users: map<int, User>, items: seq<ItemRow>, comments: seq<CommentRow>, nextCommentId: int)
  {
    StrictlyIncreasing(comments, CommentKey) && KeysBelow(comments, CommentKey, nextCommentId) && 0 < nextCommentId
    && CommentsLinked(users, items, comments)
  }

  class Database {
    var users: map<int, User>
    var items: seq<ItemRow>
    var bookings: seq<BookingRow>
    var comments: seq<CommentRow>
    var requests: seq<ItemRequest>
    var nextUserId: int
    var nextItemId: int
    var nextBookingId: int
    var nextCommentId: int
    var nextRequestId: int

    /** Each table's ids are positive, below its (positive) counter and (in
        insertion order) increasing; users are stored under their own id and
        no two share an e-mail (the unique column); every saved booking has
        a status and every saved request an id; every foreign key names a
        stored row. */
    ghost predicate Valid()
      reads this
    {
      && UsersValid(users, nextUserId)
      && ItemsValid(users, items, nextItemId)
      && BookingsValid(users, items, bookings, nextBookingId)
      && CommentsValid(users, items, comments, nextCommentId)
      && StrictlyIncreasing(requests, RequestKey) && KeysBelow(requests, RequestKey, nextRequestId)
      && 0 < nextRequestId
    }

    /** An empty database; every identity column starts at 1. */
    constructor ()
      ensures Valid()
      ensures users == map[] && items == [] && bookings == [] && comments == [] && requests == []
      ensures nextUserId == 1 && nextItemId == 1 && nextBookingId == 1
      ensures nextCommentId == 1 && nextRequestId == 1
    {
      users, items, bookings, comments, requests := map[], [], [], [], [];
      nextUserId, nextItemId, nextBookingId, nextCommentId, nextRequestId := 1, 1, 1, 1, 1;
    }

    /** The items as a query loads them, owners fetched, in table order. */
    function ItemEntities(): seq<Item>
      reads this
    {
      LoadItems(users, items)
    }

    /** The bookings as a query loads them, items and bookers fetched. */
    function BookingEntities(): seq<Booking>
      reads this
    {
      LoadBookings(users, items, bookings)
    }

    /** The comments as a query loads them, items and authors fetched. */
    function CommentEntities(): seq<Comment>
      reads this
    {
      LoadComments(users, items, comments)
    }

    /** Writes a booking row over the stored row with its id. */
    method ReplaceBookingRow(k: nat, row: BookingRow)
      requires Valid()
      requires k < |bookings| && row.id == bookings[k].id && row.status.Some?
      requires row.bookerId in users && HasItem(items, row.itemId)
      modifies this`bookings
      ensures Valid() && bookings == old(bookings)[k := row]
    {
      BookingReplaced(users, items, bookings, nextBookingId, k, row);
      bookings := bookings[k := row];
    }

    /** Inserts a booking row under the next identity value. */
    method AppendBookingRow(row: BookingRow)
      requires Valid()
      requires row.id == nextBookingId && row.status.Some?
      requires row.bookerId in users && HasItem(items, row.itemId)
      modifies this`bookings, this`nextBookingId
      ensures Valid() && bookings == old(bookings) + [row] && nextBookingId == old(nextBookingId) + 1
    {
      BookingAppended(users, items, bookings, nextBookingId, row);
      bookings := bookings + [row];
      nextBookingId := nextBookingId + 1;
    }
  }

  /** `findById` over loaded items. */
  function FindItem(items: seq<Item>, id: int): (r: Option<Item>)
    ensures r.Some? ==> r.value in items && r.value.id == id
    ensures r.None? <==> forall i :: i in items ==> i.id != id
  {
    match IndexOf(items, id, EntityKey)
    case Some(k) => Some(items[k])
    case None => None
  }

  /** Looking an item up among the loaded items finds the stored row under
      that id, loaded. */
  lemma FindLoadedItem(users: map<int, User>, items: seq<ItemRow>, id: int)
    ensures FindItem(LoadItems(users, items), id).Some? <==> HasItem(items, id)
    ensures HasItem(items, id) ==>
      IndexOf(LoadItems(users, items), id, EntityKey) == IndexOf(items, id, ItemKey)
      && FindItem(LoadItems(users, items), id).value == ItemById(users, items, id)
  {
    var loaded := LoadItems(users, items);
    IndexOfSameKeys(loaded, items, EntityKey, ItemKey, id);
  }

  /** `BookingRepository.findById`: the position of the booking row. */
  function LookupBooking(bookings: seq<BookingRow>, id: int): (r: Option<nat>)
    ensures r.Some? ==> r.value < |bookings| && bookings[r.value].id == id
    ensures r.None? <==> forall b :: b in bookings ==> b.id != id
  {
    IndexOf(bookings, id, BookingKey)
  }

  /** Replacing a booking row by one whose keys name stored rows keeps the
      bookings linked, and changes the loaded bookings in that place only. */
  lemma LinkedBookingUpdate(users: map<int, User>, items: seq<ItemRow>, bookings: seq<BookingRow>, k: nat, row: BookingRow)
    requires BookingsLinked(users, items, bookings) && k < |bookings|
    requires row.bookerId in users && HasItem(items, row.itemId)
    ensures BookingsLinked(users, items, bookings[k := row])
    ensures LoadBookings(users, items, bookings[k := row]) == LoadBookings(users, items, bookings)[k := LoadBooking(users, items, row)]
  {
  }

  /** Appending such a row keeps the bookings linked and appends its loaded
      booking. */
  lemma LinkedBookingAppend(users: map<int, User>, items: seq<ItemRow>, bookings: seq<BookingRow>, row: BookingRow)
    requires BookingsLinked(users, items, bookings)
    requires row.bookerId in users && HasItem(items, row.itemId)
    ensures BookingsLinked(users, items, bookings + [row])
    ensures LoadBookings(users, items, bookings + [row]) == LoadBookings(users, items, bookings) + [LoadBooking(users, items, row)]
  {
  }

  /** The same for a comment row. */
  lemma LinkedCommentUpdate(users: map<int, User>, items: seq<ItemRow>, comments: seq<CommentRow>, k: nat, row: CommentRow)
    requires CommentsLinked(users, items, comments) && k < |comments|
    requires row.userId in users && HasItem(items, row.itemId)
    ensures CommentsLinked(users, items, comments[k := row])
    ensures LoadComments(users, items, comments[k := row]) == LoadComments(users, items, comments)[k := LoadComment(users, items, row)]
  {
  }

  lemma LinkedCommentAppend(users: map<int, User>, items: seq<ItemRow>, comments: seq<CommentRow>, row: CommentRow)
    requires CommentsLinked(users, items, comments)
    requires row.userId in users && HasItem(items, row.itemId)
    ensures CommentsLinked(users, items, comments + [row])
    ensures LoadComments(users, items, comments + [row]) == LoadComments(users, items, comments) + [LoadComment(users, items, row)]
  {
  }

  /** Replacing an item row by one with the same id keeps every id of the
      items table stored, so every reference to it stays valid. */
  lemma ItemUpdateKeepsLinks(users: map<int, User>, items: seq<ItemRow>, bookings: seq<BookingRow>,
                             comments: seq<CommentRow>, k: nat, row: ItemRow)
    requires k < |items| && row.id == items[k].id
    requires BookingsLinked(users, items, bookings) && CommentsLinked(users, items, comments)
    ensures BookingsLinked(users, items[k := row], bookings) && CommentsLinked(users, items[k := row], comments)
  {
    forall id: int
      ensures HasItem(items[k := row], id) == HasItem(items, id)
    {
      IndexOfSameKeys(items[k := row], items, ItemKey, ItemKey, id);
    }
  }

  /** Appending an item row keeps every id of the items table stored. */
  lemma ItemAppendKeepsLinks(users: map<int, User>, items: seq<ItemRow>, bookings: seq<BookingRow>,
                             comments: seq<CommentRow>, row: ItemRow)
    requires BookingsLinked(users, items, bookings) && CommentsLinked(users, items, comments)
    ensures BookingsLinked(users, items + [row], bookings) && CommentsLinked(users, items + [row], comments)
  {
    forall id: int | HasItem(items, id)
      ensures HasItem(items + [row], id)
    {
      var i := IndexOf(items, id, ItemKey).value;
      assert (items + [row])[i] == items[i];
    }
  }

  /** Removing the item row at `k` keeps every other id stored, so the
      references stay valid when none of them names the removed item. */
  lemma ItemRemoveKeepsLinks(users: map<int, User>, items: seq<ItemRow>, bookings: seq<BookingRow>,
                             comments: seq<CommentRow>, k: nat)
    requires k < |items|
    requires BookingsLinked(users, items, bookings) && CommentsLinked(users, items, comments)
    requires forall b :: b in bookings ==> b.itemId != items[k].id
    requires forall c :: c in comments ==> c.itemId != items[k].id
    ensures BookingsLinked(users, items[..k] + items[k + 1..], bookings)
    ensures CommentsLinked(users, items[..k] + items[k + 1..], comments)
  {
    var rest := items[..k] + items[k + 1..];
    forall id: int | HasItem(items, id) && id != items[k].id
      ensures HasItem(rest, id)
    {
      var i := IndexOf(items, id, ItemKey).value;
      if i < k {
        assert rest[i] == items[i];
      } else {
        assert rest[i - 1] == items[i];
      }
    }
    forall j | 0 <= j < |bookings|
      ensures HasItem(rest, bookings[j].itemId)
    {
      assert bookings[j] in bookings;
    }
    forall j | 0 <= j < |comments|
      ensures HasItem(rest, comments[j].itemId)
    {
      assert comments[j] in comments;
    }
  }

  /** Loading the row an item is saved as gives the item back when its
      owner is the stored user. */
  lemma LoadSavedItem(users: map<int, User>, item: Item)
    requires item.owner.id in users && users[item.owner.id] == item.owner
    ensures LoadItem(users, ItemRowOf(item)) == item
  {
  }

  /** Once an item's row is stored, with its owner the stored user, looking
      its id up among the loaded items finds that item. */
  lemma FindStoredItem(users: map<int, User>, items: seq<ItemRow>, item: Item)
    requires StrictlyIncreasing(items, ItemKey) && ItemRowOf(item) in items
    requires item.owner.id in users && users[item.owner.id] == item.owner
    ensures FindItem(LoadItems(users, items), item.id) == Some(item)
  {
    var k :| 0 <= k < |items| && items[k] == ItemRowOf(item);
    IndexOfUnique(items, item.id, ItemKey, k);
    FindLoadedItem(users, items, item.id);
    LoadSavedItem(users, item);
  }

  /** Once a comment's row is stored, with its author and its item current,
      the loaded comment at the position of its id is that comment. */
  lemma FindStoredComment(users: map<int, User>, items: seq<ItemRow>, comments: seq<CommentRow>, c: Comment)
    requires StrictlyIncreasing(comments, CommentKey) && CommentRowOf(c) in comments
    requires c.user.id in users && users[c.user.id] == c.user
    requires HasItem(items, c.item.id) && ItemById(users, items, c.item.id) == c.item
    ensures IndexOf(comments, c.id, CommentKey).Some?
    ensures LoadComments(users, items, comments)[IndexOf(comments, c.id, CommentKey).value] == c
  {
    var k :| 0 <= k < |comments| && comments[k] == CommentRowOf(c);
    IndexOfUnique(comments, c.id, CommentKey, k);
    LoadSavedComment(users, items, c);
  }

  /** Loading the row a comment is saved as gives it back when its author
      and its item are current. */
  lemma LoadSavedComment(users: map<int, User>, items: seq<ItemRow>, c: Comment)
    requires c.user.id in users && users[c.user.id] == c.user
    requires HasItem(items, c.item.id) && ItemById(users, items, c.item.id) == c.item
    ensures LoadComment(users, items, CommentRowOf(c)) == c
  {
  }

  // ------------------------------------------------- keeping the tables valid

  /** Replacing an item row by one with the same id and a stored owner
      keeps the items, bookings and comments tables valid. */
  lemma ItemReplaced(users: map<int, User>, items: seq<ItemRow>, bookings: seq<BookingRow>, comments: seq<CommentRow>,
                     nextItemId: int, nextBookingId: int, nextCommentId: int, k: nat, row: ItemRow)
    requires ItemsValid(users, items, nextItemId) && BookingsValid(users, items, bookings, nextBookingId)
    requires CommentsValid(users, items, comments, nextCommentId)
    requires k < |items| && row.id == items[k].id && row.ownerId in users
    ensures ItemsValid(users, items[k := row], nextItemId) && BookingsValid(users, items[k := row], bookings, nextBookingId)
    ensures CommentsValid(users, items[k := row], comments, nextCommentId)
  {
    UpdateKeepsKeys(items, k, row, ItemKey, nextItemId);
    ItemUpdateKeepsLinks(users, items, bookings, comments, k, row);
  }

  /** Appending an item row under the next identity value, with a stored
      owner, keeps those tables valid. */
  lemma ItemAppended(users: map<int, User>, items: seq<ItemRow>, bookings: seq<BookingRow>, comments: seq<CommentRow>,
                     nextItemId: int, nextBookingId: int, nextCommentId: int, row: ItemRow)
    requires ItemsValid(users, items, nextItemId) && BookingsValid(users, items, bookings, nextBookingId)
    requires CommentsValid(users, items, comments, nextCommentId)
    requires row.id == nextItemId && row.ownerId in users
    ensures ItemsValid(users, items + [row], nextItemId + 1) && BookingsValid(users, items + [row], bookings, nextBookingId)
    ensures CommentsValid(users, items + [row], comments, nextCommentId)
  {
    AppendIncreasing(items, row, ItemKey, nextItemId);
    ItemAppendKeepsLinks(users, items, bookings, comments, row);
  }

  /** Removing an item row that no booking or comment names keeps those
      tables valid. */
  lemma ItemRemoved(users: map<int, User>, items: seq<ItemRow>, bookings: seq<BookingRow>, comments: seq<CommentRow>,
                    nextItemId: int, nextBookingId: int, nextCommentId: int, k: nat)
    requires ItemsValid(users, items, nextItemId) && BookingsValid(users, items, bookings, nextBookingId)
    requires CommentsValid(users, items, comments, nextCommentId)
    requires k < |items|
    requires forall b :: b in bookings ==> b.itemId != items[k].id
    requires forall c :: c in comments ==> c.itemId != items[k].id
    ensures ItemsValid(users, items[..k] + items[k + 1..], nextItemId)
    ensures BookingsValid(users, items[..k] + items[k + 1..], bookings, nextBookingId)
    ensures CommentsValid(users, items[..k] + items[k + 1..], comments, nextCommentId)
  {
    var rest := items[..k] + items[k + 1..];
    assert forall a :: 0 <= a < |rest| ==> rest[a] == (if a < k then items[a] else items[a + 1]);
    RemoveKeepsKeys(items, k, ItemKey, nextItemId);
    ItemRemoveKeepsLinks(users, items, bookings, comments, k);
  }

  /** Replacing a booking row by one with the same id, a status and stored
      keys keeps the bookings table valid and changes that loaded booking only. */
  lemma BookingReplaced(users: map<int, User>, items: seq<ItemRow>, bookings: seq<BookingRow>,
                        nextBookingId: int, k: nat, row: BookingRow)
    requires BookingsValid(users, items, bookings, nextBookingId)
    requires k < |bookings| && row.id == bookings[k].id && row.status.Some?
    requires row.bookerId in users && HasItem(items, row.itemId)
    ensures BookingsValid(users, items, bookings[k := row], nextBookingId)
    ensures LoadBookings(users, items, bookings[k := row]) == LoadBookings(users, items, bookings)[k := LoadBooking(users, items, row)]
  {
    UpdateKeepsKeys(bookings, k, row, BookingKey, nextBookingId);
    LinkedBookingUpdate(users, items, bookings, k, row);
  }

  /** Appending such a booking row under the next identity value keeps the
      bookings table valid and appends its loaded booking. */
  lemma BookingAppended(users: map<int, User>, items: seq<ItemRow>, bookings: seq<BookingRow>,
                        nextBookingId: int, row: BookingRow)
    requires BookingsValid(users, items, bookings, nextBookingId)
    requires row.id == nextBookingId && row.status.Some?
    requires row.bookerId in users && HasItem(items, row.itemId)
    ensures BookingsValid(users, items, bookings + [row], nextBookingId + 1)
    ensures LoadBookings(users, items, bookings + [row]) == LoadBookings(users, items, bookings) + [LoadBooking(users, items, row)]
  {
    AppendIncreasing(bookings, row, BookingKey, nextBookingId);
    LinkedBookingAppend(users, items, bookings, row);
  }

  /** The same for a comment row replaced in place. */
  lemma CommentReplaced(users: map<int, User>, items: seq<ItemRow>, comments: seq<CommentRow>,
                        nextCommentId: int, k: nat, row: CommentRow)
    requires CommentsValid(users, items, comments, nextCommentId)
    requires k < |comments| && row.id == comments[k].id
    requires row.userId in users && HasItem(items, row.itemId)
    ensures CommentsValid(users, items, comments[k := row], nextCommentId)
  {
    UpdateKeepsKeys(comments, k, row, CommentKey, nextCommentId);
    LinkedCommentUpdate(users, items, comments, k, row);
  }

  /** The same for a comment row appended under the next identity value. */
  lemma CommentAppended(users: map<int, User>, items: seq<ItemRow>, comments: seq<CommentRow>,
                        nextCommentId: int, row: CommentRow)
    requires CommentsValid(users, items, comments, nextCommentId)
    requires row.id == nextCommentId
    requires row.userId in users && HasItem(items, row.itemId)
    ensures CommentsValid(users, items, comments + [row], nextCommentId + 1)
  {
    AppendIncreasing(comments, row, CommentKey, nextCommentId);
    LinkedCommentAppend(users, items, comments, row);
  }

  /** Loading rows of users and items saved from entities that were current
      gives those entities back. */
  lemma LoadSavedBooking(users: map<int, User>, items: seq<ItemRow>, b: Booking)
    requires b.booker.id in users && users[b.booker.id] == b.booker
    requires HasItem(items, b.item.id) && ItemById(users, items, b.item.id) == b.item
    ensures LoadBooking(users, items, BookingRowOf(b)) == b
  {
  }
}
