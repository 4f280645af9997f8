/** `ItemServiceImpl`: items with their owner-only update and delete,
    search, comments from past bookers, and the last and next booking an
    owner sees on an item. */
module ItemService {
  import opened Wrappers
  import opened Domain
  import opened Text
  import opened Sequences
  import opened BookingRepository
  import opened BookingMapper
  import opened ItemMapper
  import opened CommentMapper
  import opened ItemRepository
  import opened Database
  import BookingService

  // ------------------------------------------------------------- ownership

  /** `checkOwner`: the user exists, the item exists and the user owns it;
      on success, the item as loaded from its row. */
  function CheckOwner(db: Database, userId: int, itemId: int): (r: Result<Item, Error>)
    reads db
    ensures userId !in db.users ==> r == Err(BookingService.UserNotFound(userId))
    ensures userId in db.users && FindItem(db.ItemEntities(), itemId).None? ==> r == Err(BookingService.ItemNotFound(itemId))
    ensures userId in db.users && FindItem(db.ItemEntities(), itemId).Some? && FindItem(db.ItemEntities(), itemId).value.owner.id != userId
      ==> r == Err(BookingService.NotOwner(userId, itemId))
    ensures r.Ok? <==>
      userId in db.users && FindItem(db.ItemEntities(), itemId).Some? && FindItem(db.ItemEntities(), itemId).value.owner.id == userId
    ensures r.Ok? ==> r.value in db.ItemEntities() && r.value.id == itemId && r.value.owner.id == userId
    ensures r.Ok? ==> HasItem(db.items, itemId) && r.value == ItemById(db.users, db.items, itemId)
  {
    FindLoadedItem(db.users, db.items, itemId);
    match BookingService.CheckUser(db, userId)
    case Err(e) => Err(e)
    case Ok(_) =>
      match BookingService.CheckItem(db, itemId)
      case Err(e) => Err(e)
      case Ok(item) => if item.owner.id != userId then Err(BookingService.NotOwner(userId, itemId)) else Ok(item)
  }

  // -------------------------------------------------------------- creation

  /** `createItem`: the owner must exist; the item built from the DTO, owned
      by the caller, is saved (see `SaveItem`) and its saved row returned. */
  method CreateItem(db: Database, dto: ItemDto, userId: int) returns (r: Result<ItemDto, Error>)
    requires db.Valid()
    requires dto.name.Some? && dto.description.Some? && dto.available.Some?
    modifies db`items, db`nextItemId
    ensures db.Valid()
    ensures userId !in old(db.users) ==>
      r == Err(BookingService.UserNotFound(userId)) && db.items == old(db.items) && db.nextItemId == old(db.nextItemId)
    ensures userId in old(db.users) ==>
      var item := ToItem(dto, old(db.users[userId]));
      && (IndexOf(old(db.items), item.id, ItemKey).Some? ==>
            && db.items == old(db.items)[IndexOf(old(db.items), item.id, ItemKey).value := ItemRowOf(item)]
            && db.nextItemId == old(db.nextItemId)
            && r == Ok(ToItemDto(item)))
      && (IndexOf(old(db.items), item.id, ItemKey).None? ==>
            && db.items == old(db.items) + [ItemRowOf(item.(id := old(db.nextItemId)))]
            && db.nextItemId == old(db.nextItemId) + 1
            && r == Ok(ToItemDto(item.(id := old(db.nextItemId)))))
    ensures r.Ok? ==>
      FindItem(db.ItemEntities(), r.value.id.value).Some?
      && ToItemDto(FindItem(db.ItemEntities(), r.value.id.value).value) == r.value
  {
    var user := BookingService.CheckUser(db, userId);
    if user.Err? {
      return Err(user.error);
    }
    var item := ToItem(dto, user.value);
    var saved := SaveItem(db, item);
    r := Ok(ToItemDto(saved));
  }

  /** `itemRepository.save`, a JPA merge: an item whose id names a stored
      row replaces that row (its owner included, so every booking of the
      item then shows the new owner); any other (a null id maps to 0, which
      no row has) is stored as a new row under the next identity value. The
      item as stored is returned, and loading its row gives it back. */
  method SaveItem(db: Database, item: Item) returns (saved: Item)
    requires db.Valid() && item.owner.id in db.users && db.users[item.owner.id] == item.owner
    modifies db`items, db`nextItemId
    ensures db.Valid()
    ensures IndexOf(old(db.items), item.id, ItemKey).Some? ==>
      && saved == item
      && db.items == old(db.items)[IndexOf(old(db.items), item.id, ItemKey).value := ItemRowOf(item)]
      && db.nextItemId == old(db.nextItemId)
    ensures IndexOf(old(db.items), item.id, ItemKey).None? ==>
      && saved == item.(id := old(db.nextItemId))
      && db.items == old(db.items) + [ItemRowOf(saved)]
      && db.nextItemId == old(db.nextItemId) + 1
    ensures FindItem(db.ItemEntities(), saved.id) == Some(saved)
  {
    match IndexOf(db.items, item.id, ItemKey) {
    case Some(k) =>
      ReplaceItem(db, k, ItemRowOf(item));
      saved := item;
      assert db.items[k] == ItemRowOf(saved);
    case None =>
      saved := item.(id := db.nextItemId);
      var row := ItemRowOf(saved);
      ItemAppended(db.users, db.items, db.bookings, db.comments, db.nextItemId, db.nextBookingId, db.nextCommentId, row);
      db.items := db.items + [row];
      db.nextItemId := db.nextItemId + 1;
      assert db.items[|db.items| - 1] == row;
    }
    FindStoredItem(db.users, db.items, saved);
  }

  // ---------------------------------------------------------------- update

  /** The partial update of `updateItem` on the stored item: an absent field
      is kept, a blank name or description is refused (the name first), and
      a present availability overwrites the stored one. */
  function Patch(item: Item, dto: ItemDto): (r: Result<Item, Error>)
    ensures dto.name.Some? && IsBlank(dto.name.value) ==>
      r == Err(ValidationException("Название не может быть пустым"))
    ensures !(dto.name.Some? && IsBlank(dto.name.value)) && dto.description.Some? && IsBlank(dto.description.value) ==>
      r == Err(ValidationException("Описание не может быть пустым"))
    ensures r.Ok? <==>
      !(dto.name.Some? && IsBlank(dto.name.value)) && !(dto.description.Some? && IsBlank(dto.description.value))
    ensures r.Ok? ==>
      && r.value.id == item.id && r.value.owner == item.owner && r.value.request == item.request
      && r.value.name == (if dto.name.Some? then dto.name.value else item.name)
      && r.value.description == (if dto.description.Some? then dto.description.value else item.description)
      && r.value.available == (if dto.available.Some? then dto.available.value else item.available)
  {
    if dto.name.Some? && IsBlank(dto.name.value) then
      Err(ValidationException("Название не может быть пустым"))
    else if dto.description.Some? && IsBlank(dto.description.value) then
      Err(ValidationException("Описание не может быть пустым"))
    else
      Ok(item.(name := if dto.name.Some? then dto.name.value else item.name,
               description := if dto.description.Some? then dto.description.value else item.description,
               available := if dto.available.Some? then dto.available.value else item.available))
  }

  /** Applying the same update twice gives what applying it once gave. */
  lemma PatchIdempotent(item: Item, dto: ItemDto)
    requires Patch(item, dto).Ok?
    ensures Patch(Patch(item, dto).value, dto) == Patch(item, dto)
  {
  }

  /** An update with every field absent changes nothing. */
  lemma EmptyPatchKeepsItem(item: Item)
    ensures Patch(item, EmptyItemDto) == Ok(item)
  {
  }

  /** `updateItem`: only the owner may update; the fields are checked and
      set one by one on the stored item, and the item is saved only when
      every check passed. */
  method UpdateItem(db: Database, dto: ItemDto, itemId: int, userId: int) returns (r: Result<ItemDto, Error>)
    requires db.Valid()
    modifies db`items
    ensures db.Valid()
    ensures old(CheckOwner(db, userId, itemId)).Err? ==>
      r == Err(old(CheckOwner(db, userId, itemId)).error) && db.items == old(db.items)
    ensures old(CheckOwner(db, userId, itemId)).Ok? ==>
      var k := old(IndexOf(db.items, itemId, ItemKey)).value;
      var patched := Patch(old(CheckOwner(db, userId, itemId)).value, dto);
      && (patched.Err? ==> r == Err(patched.error) && db.items == old(db.items))
      && (patched.Ok? ==> r == Ok(ToItemDto(patched.value)) && db.items == old(db.items)[k := ItemRowOf(patched.value)])
    ensures r.Ok? ==>
      && FindItem(db.ItemEntities(), itemId).Some?
      && ToItemDto(FindItem(db.ItemEntities(), itemId).value) == r.value
  {
    var owned := CheckOwner(db, userId, itemId);
    if owned.Err? {
      return Err(owned.error);
    }
    var patched := PatchFields(owned.value, dto);
    if patched.Err? {
      return Err(patched.error);
    }
    var item := patched.value;
    var k := IndexOf(db.items, itemId, ItemKey).value;
    ReplaceItem(db, k, ItemRowOf(item));
    assert db.items[k] == ItemRowOf(item);
    FindStoredItem(db.users, db.items, item);
    r := Ok(ToItemDto(item));
  }

  /** The checks and setters of `updateItem`, field by field on the loaded
      item; the first blank field returns its error. */
  method PatchFields(stored: Item, dto: ItemDto) returns (r: Result<Item, Error>)
    ensures r == Patch(stored, dto)
  {
    var item := stored;
    if dto.name.Some? {
      if IsBlank(dto.name.value) {
        return Err(ValidationException("Название не может быть пустым"));
      }
      item := item.(name := dto.name.value);
    }
    if dto.description.Some? {
      if IsBlank(dto.description.value) {
        return Err(ValidationException("Описание не может быть пустым"));
      }
      item := item.(description := dto.description.value);
    }
    if dto.available.Some? {
      item := item.(available := dto.available.value);
    }
    r := Ok(item);
  }

  /** `itemRepository.save` of a stored item: the row with its id is replaced. */
  method ReplaceItem(db: Database, k: nat, row: ItemRow)
    requires db.Valid() && k < |db.items| && row.id == db.items[k].id && row.ownerId in db.users
    modifies db`items
    ensures db.Valid()
    ensures db.items == old(db.items)[k := row]
  {
    ItemReplaced(db.users, db.items, db.bookings, db.comments, db.nextItemId, db.nextBookingId, db.nextCommentId, k, row);
    db.items := db.items[k := row];
  }

  /** Some booking or comment row names the item in its `ITEM_ID` column. */
  predicate Referenced(db: Database, itemId: int)
    reads db
  {
    (exists b :: b in db.bookings && b.itemId == itemId) || (exists c :: c in db.comments && c.itemId == itemId)
  }

  /** `deleteItem`: only the owner may delete. The foreign keys of the
      bookings and comments tables refuse the delete of an item they still
      name; otherwise the item's row leaves the table, the other rows keep
      their order, and nothing else changes. */
  method DeleteItem(db: Database, userId: int, itemId: int) returns (r: Outcome<Error>)
    requires db.Valid()
    modifies db`items
    ensures db.Valid()
    ensures old(CheckOwner(db, userId, itemId)).Err? ==>
      r == Fail(old(CheckOwner(db, userId, itemId)).error) && db.items == old(db.items)
    ensures old(CheckOwner(db, userId, itemId)).Ok? && old(Referenced(db, itemId)) ==>
      r == Fail(DataIntegrityViolation) && db.items == old(db.items)
    ensures old(CheckOwner(db, userId, itemId)).Ok? && !old(Referenced(db, itemId)) ==>
      && r == Pass
      && var k := old(IndexOf(db.items, itemId, ItemKey)).value;
         db.items == old(db.items)[..k] + old(db.items)[k + 1..]
    ensures r.Pass? ==>
      && !HasItem(db.items, itemId)
      && (forall i :: i in db.items <==> i in old(db.items) && i.id != itemId)
  {
    var owned := CheckOwner(db, userId, itemId);
    if owned.Err? {
      return Fail(owned.error);
    }
    if Referenced(db, itemId) {
      return Fail(DataIntegrityViolation);
    }
    var k := IndexOf(db.items, itemId, ItemKey).value;
    RemoveItemRow(db, k);
    r := Pass;
  }

  /** `itemRepository.deleteById` of an item no row refers to: its row
      leaves the table and the others keep their order. */
  method RemoveItemRow(db: Database, k: nat)
    requires db.Valid() && k < |db.items| && !Referenced(db, db.items[k].id)
    modifies db`items
    ensures db.Valid()
    ensures db.items == old(db.items)[..k] + old(db.items)[k + 1..]
    ensures !HasItem(db.items, old(db.items)[k].id)
    ensures forall i :: i in db.items <==> i in old(db.items) && i.id != old(db.items)[k].id
  {
    ItemRemoved(db.users, db.items, db.bookings, db.comments, db.nextItemId, db.nextBookingId, db.nextCommentId, k);
    RemoveKey(db.items, k, ItemKey);
    db.items := db.items[..k] + db.items[k + 1..];
  }

  // ---------------------------------------------------------------- search

  function ItemDtos(s: seq<Item>): (r: seq<ItemDto>)
    ensures |r| == |s| && forall k :: 0 <= k < |s| ==> r[k] == ToItemDto(s[k])
  {
    seq(|s|, k requires 0 <= k < |s| => ToItemDto(s[k]))
  }

  /** `getByText`: a blank text finds nothing; otherwise the search result,
      converted, in table order. */
  function GetByText(db: Database, text: string): (r: seq<ItemDto>)
    reads db
    ensures IsBlank(text) ==> r == []
    ensures forall k :: 0 <= k < |r| ==> FoundDto(r[k], db.ItemEntities(), text)
    ensures !IsBlank(text) ==> forall i :: i in db.ItemEntities() && SearchMatches(i, text) ==> ToItemDto(i) in r
  {
    if IsBlank(text) then [] else SearchDtos(db.ItemEntities(), text)
  }

  /** `d` is the DTO of an item the search matches. */
  ghost predicate FoundDto(d: ItemDto, items: seq<Item>, text: string)
  {
    exists i :: i in items && SearchMatches(i, text) && d == ToItemDto(i)
  }

  /** The converted search result over the loaded items. */
  function SearchDtos(items: seq<Item>, text: string): (r: seq<ItemDto>)
    ensures forall k :: 0 <= k < |r| ==> FoundDto(r[k], items, text)
    ensures forall i :: i in items && SearchMatches(i, text) ==> ToItemDto(i) in r
  {
    var found := Search(items, text);
    var r := ItemDtos(found);
    assert forall k :: 0 <= k < |r| ==> found[k] in found && r[k] == ToItemDto(found[k]);
    assert forall i :: i in found ==> ToItemDto(i) in r by {
      forall i | i in found ensures ToItemDto(i) in r {
        var k :| 0 <= k < |found| && found[k] == i;
        assert r[k] == ToItemDto(i);
      }
    }
    r
  }

  // -------------------------------------------------------------- comments

  /** Who may comment: the user has an APPROVED booking of the item that
      started before now. */
  ghost predicate MayComment(db: Database, userId: int, itemId: int, now: int)
    reads db
  {
    exists b :: b in db.BookingEntities() && b.booker.id == userId && b.item.id == itemId
                && b.status == Some(Approved) && b.start < now
  }

  /** The repository query finds a booking exactly when the user may comment. */
  lemma MayCommentQuery(db: Database, userId: int, itemId: int, now: int)
    ensures MayComment(db, userId, itemId, now) <==>
      FindByBookerIdAndItemIdAndStatusAndStartIsBefore(db.BookingEntities(), userId, itemId, Approved, now) != []
  {
    var found := FindByBookerIdAndItemIdAndStatusAndStartIsBefore(db.BookingEntities(), userId, itemId, Approved, now);
    if found != [] {
      assert found[0] in found;
    }
  }

  const NotABooker := CommentAccessDenied("Вы не бронировали вещь. Оставить комментарий невозможно.")

  /** The guards of `createComment`, in order: the author exists, the item
      exists, and the author has rented the item. On success the author and
      the item. */
  function CommentGuards(db: Database, userId: int, itemId: int, now: int): (r: Result<(User, Item), Error>)
    reads db
    ensures userId !in db.users ==> r == Err(BookingService.UserNotFound(userId))
    ensures userId in db.users && FindItem(db.ItemEntities(), itemId).None? ==> r == Err(BookingService.ItemNotFound(itemId))
    ensures userId in db.users && FindItem(db.ItemEntities(), itemId).Some? && !MayComment(db, userId, itemId, now) ==>
      r == Err(NotABooker)
    ensures r.Ok? <==> userId in db.users && FindItem(db.ItemEntities(), itemId).Some? && MayComment(db, userId, itemId, now)
    ensures r.Ok? ==> r.value == (db.users[userId], FindItem(db.ItemEntities(), itemId).value)
  {
    match BookingService.CheckUser(db, userId)
    case Err(e) => Err(e)
    case Ok(user) =>
      match BookingService.CheckItem(db, itemId)
      case Err(e) => Err(e)
      case Ok(item) =>
        MayCommentQuery(db, userId, itemId, now);
        if FindByBookerIdAndItemIdAndStatusAndStartIsBefore(db.BookingEntities(), userId, itemId, Approved, now) != [] then
          Ok((user, item))
        else Err(NotABooker)
  }

  /** `createComment`: when the guards pass, the comment built from the DTO,
      with the caller as author and the current instant as its creation
      time, is saved (see `SaveComment`); it is then among the item's
      comments. When a guard fails nothing is stored. */
  method CreateComment(db: Database, dto: CommentDto, userId: int, itemId: int, now: int)
    returns (r: Result<CommentDto, Error>)
    requires db.Valid() && dto.text.Some?
    modifies db`comments, db`nextCommentId
    ensures db.Valid()
    ensures old(CommentGuards(db, userId, itemId, now)).Err? ==>
      && r == Err(old(CommentGuards(db, userId, itemId, now)).error)
      && db.comments == old(db.comments) && db.nextCommentId == old(db.nextCommentId)
    ensures old(CommentGuards(db, userId, itemId, now)).Ok? ==>
      var (user, item) := old(CommentGuards(db, userId, itemId, now)).value;
      var comment := ToComment(dto, user, item, now);
      && (IndexOf(old(db.comments), dto.id, CommentKey).Some? ==>
            && db.comments == old(db.comments)[IndexOf(old(db.comments), dto.id, CommentKey).value := CommentRowOf(comment)]
            && db.nextCommentId == old(db.nextCommentId)
            && r == Ok(ToCommentDto(comment)))
      && (IndexOf(old(db.comments), dto.id, CommentKey).None? ==>
            && db.comments == old(db.comments) + [CommentRowOf(comment.(id := old(db.nextCommentId)))]
            && db.nextCommentId == old(db.nextCommentId) + 1
            && r == Ok(ToCommentDto(comment.(id := old(db.nextCommentId)))))
    ensures r.Ok? ==> r.value in GetComments(db, itemId)
  {
    var guards := CommentGuards(db, userId, itemId, now);
    if guards.Err? {
      return Err(guards.error);
    }
    var (user, item) := guards.value;
    FindLoadedItem(db.users, db.items, itemId);
    var comment := ToComment(dto, user, item, now);
    var saved := SaveComment(db, comment);
    r := Ok(ToCommentDto(saved));
    assert saved in db.CommentEntities();
  }

  /** `commentRepository.save`, a JPA merge (the id of a mapped comment is
      never null): a comment whose id names a stored row replaces that row;
      any other is stored as a new row under the next identity value. The
      comment as stored is returned. */
  method SaveComment(db: Database, comment: Comment) returns (saved: Comment)
    requires db.Valid()
    requires comment.user.id in db.users && db.users[comment.user.id] == comment.user
    requires HasItem(db.items, comment.item.id) && ItemById(db.users, db.items, comment.item.id) == comment.item
    modifies db`comments, db`nextCommentId
    ensures db.Valid()
    ensures IndexOf(old(db.comments), comment.id, CommentKey).Some? ==>
      && saved == comment
      && db.comments == old(db.comments)[IndexOf(old(db.comments), comment.id, CommentKey).value := CommentRowOf(comment)]
      && db.nextCommentId == old(db.nextCommentId)
    ensures IndexOf(old(db.comments), comment.id, CommentKey).None? ==>
      && saved == comment.(id := old(db.nextCommentId))
      && db.comments == old(db.comments) + [CommentRowOf(saved)]
      && db.nextCommentId == old(db.nextCommentId) + 1
    ensures CommentRowOf(saved) in db.comments
  {
    match IndexOf(db.comments, comment.id, CommentKey) {
    case Some(k) =>
      var row := CommentRowOf(comment);
      CommentReplaced(db.users, db.items, db.comments, db.nextCommentId, k, row);
      db.comments := db.comments[k := row];
      saved := comment;
      assert db.comments[k] == row;
    case None =>
      saved := comment.(id := db.nextCommentId);
      var row := CommentRowOf(saved);
      CommentAppended(db.users, db.items, db.comments, db.nextCommentId, row);
      db.comments := db.comments + [row];
      db.nextCommentId := db.nextCommentId + 1;
      assert db.comments[|db.comments| - 1] == row;
    }
  }

  /** `d` is the DTO of one of the comments left on the item. */
  ghost predicate CommentOnItem(d: CommentDto, comments: seq<Comment>, itemId: int)
  {
    exists c :: c in comments && c.item.id == itemId && d == ToCommentDto(c)
  }

  /** `getComments`: the item's comments, converted, in table order. */
  function GetComments(db: Database, itemId: int): (r: seq<CommentDto>)
    reads db
    ensures forall k :: 0 <= k < |r| ==> CommentOnItem(r[k], db.CommentEntities(), itemId)
    ensures forall c :: c in db.CommentEntities() && c.item.id == itemId ==> ToCommentDto(c) in r
  {
    var found := Select(db.CommentEntities(), (c: Comment) => c.item.id == itemId);
    var r := seq(|found|, k requires 0 <= k < |found| => ToCommentDto(found[k]));
    ConvertedComments(db.CommentEntities(), itemId, found, r);
    r
  }

  /** Converting the comments selected for an item gives exactly the DTOs
      of that item's comments. */
  lemma ConvertedComments(comments: seq<Comment>, itemId: int, found: seq<Comment>, r: seq<CommentDto>)
    requires forall c :: c in found <==> c in comments && c.item.id == itemId
    requires |r| == |found| && forall k :: 0 <= k < |found| ==> r[k] == ToCommentDto(found[k])
    ensures forall k :: 0 <= k < |r| ==> CommentOnItem(r[k], comments, itemId)
    ensures forall c :: c in comments && c.item.id == itemId ==> ToCommentDto(c) in r
  {
    forall k | 0 <= k < |r|
      ensures CommentOnItem(r[k], comments, itemId)
    {
      assert found[k] in found;
    }
    forall c | c in comments && c.item.id == itemId
      ensures ToCommentDto(c) in r
    {
      var k :| 0 <= k < |found| && found[k] == c;
      assert r[k] == ToCommentDto(c);
    }
  }

  // ------------------------------------------------------ last and next

  /** The position of the first booking that started before `now`. */
  function FirstStartedBefore(bs: seq<Booking>, now: int): (r: Option<nat>)
    ensures r.Some? ==> r.value < |bs| && bs[r.value].start < now
    ensures r.Some? ==> forall j :: 0 <= j < r.value ==> bs[j].start >= now
    ensures r.None? <==> forall j :: 0 <= j < |bs| ==> bs[j].start >= now
    decreases |bs|
  {
    if bs == [] then None
    else if bs[0].start < now then Some(0)
    else match FirstStartedBefore(bs[1..], now)
      case None => None
      case Some(k) => Some(k + 1)
  }

  /** The position of the last booking before position `upTo` that starts after `now`. */
  function LastStartingAfter(bs: seq<Booking>, upTo: nat, now: int): (r: Option<nat>)
    requires upTo <= |bs|
    ensures r.Some? ==> r.value < upTo && bs[r.value].start > now
    ensures r.Some? ==> forall j :: r.value < j < upTo ==> bs[j].start <= now
    ensures r.None? <==> forall j :: 0 <= j < upTo ==> bs[j].start <= now
    decreases upTo
  {
    if upTo == 0 then None
    else if bs[upTo - 1].start > now then Some(upTo - 1)
    else LastStartingAfter(bs, upTo - 1, now)
  }

  /** What `getLastAndNextBooking` returns for the item's APPROVED and
      WAITING bookings `bs`: nothing for no bookings; otherwise the first
      booking that started before now, followed by the last booking seen
      before it that starts after now, if any. With no started booking the
      null `last` is converted, which throws. */
  function LastAndNext(bs: seq<Booking>, now: int): (r: Result<seq<BookingDto>, Error>)
    ensures bs == [] ==> r == Ok([])
    ensures r.Err? <==> bs != [] && FirstStartedBefore(bs, now).None?
    ensures r.Err? ==> r.error == NullPointer
    ensures r.Ok? && bs != [] ==> 1 <= |r.value| <= 2
    ensures r.Ok? && bs != [] ==>
      var k := FirstStartedBefore(bs, now).value;
      && r.value[0] == ToBookingDto(bs[k])
      && (|r.value| == 2 <==> LastStartingAfter(bs, k, now).Some?)
      && (|r.value| == 2 ==> r.value[1] == ToBookingDto(bs[LastStartingAfter(bs, k, now).value]))
  {
    if bs == [] then Ok([])
    else match FirstStartedBefore(bs, now)
      case None => Err(NullPointer)
      case Some(k) =>
        match LastStartingAfter(bs, k, now)
        case None => Ok([ToBookingDto(bs[k])])
        case Some(j) => Ok([ToBookingDto(bs[k]), ToBookingDto(bs[j])])
  }

  /** On a start-descending list, `last` is a booking with the latest start
      among those that started before now. */
  lemma LastIsLatestStarted(bs: seq<Booking>, now: int)
    requires NonIncreasing(bs, Start) && FirstStartedBefore(bs, now).Some?
    ensures var k := FirstStartedBefore(bs, now).value;
      forall j :: 0 <= j < |bs| && bs[j].start < now ==> bs[j].start <= bs[k].start
  {
  }

  /** On a start-descending list, `next` is a booking with the earliest start
      among those starting after now, and there is none when `next` is absent. */
  lemma NextIsEarliestFuture(bs: seq<Booking>, now: int)
    requires NonIncreasing(bs, Start) && FirstStartedBefore(bs, now).Some?
    ensures var k := FirstStartedBefore(bs, now).value;
      match LastStartingAfter(bs, k, now)
      case Some(j) => forall i :: 0 <= i < |bs| && bs[i].start > now ==> bs[j].start <= bs[i].start
      case None => forall i :: 0 <= i < |bs| ==> bs[i].start <= now
  {
    var k := FirstStartedBefore(bs, now).value;
    var next := LastStartingAfter(bs, k, now);
    if next.Some? {
      EarliestFutureBefore(bs, now, k, next.value);
    } else {
      NoFutureBefore(bs, now, k);
    }
  }

  /** On a start-descending list, a successful `LastAndNext` holds the DTO of
      a booking with the latest start among those that started before now,
      then, exactly when some booking starts after now, the DTO of one with
      the earliest such start. */
  lemma LastAndNextAreLatestAndEarliest(bs: seq<Booking>, now: int)
    requires NonIncreasing(bs, Start) && LastAndNext(bs, now).Ok? && bs != []
    ensures var r := LastAndNext(bs, now).value;
      && (exists b :: b in bs && b.start < now && r[0] == ToBookingDto(b)
                     && forall c :: c in bs && c.start < now ==> c.start <= b.start)
      && (|r| == 2 <==> exists c :: c in bs && c.start > now)
      && (|r| == 2 ==> exists b :: b in bs && b.start > now && r[1] == ToBookingDto(b)
                                   && forall c :: c in bs && c.start > now ==> b.start <= c.start)
  {
    var r := LastAndNext(bs, now).value;
    var k := FirstStartedBefore(bs, now).value;
    LastIsLatestStarted(bs, now);
    NextIsEarliestFuture(bs, now);
    assert bs[k] in bs;
    match LastStartingAfter(bs, k, now)
    case Some(j) =>
      assert bs[j] in bs && bs[j].start > now;
    case None =>
  }

  /** A future booking at `j`, followed only by past ones up to a started
      booking at `k`, starts no later than any future booking. */
  lemma EarliestFutureBefore(bs: seq<Booking>, now: int, k: nat, j: nat)
    requires NonIncreasing(bs, Start) && j < k < |bs| && bs[k].start < now
    requires forall i :: j < i < k ==> bs[i].start <= now
    ensures forall i :: 0 <= i < |bs| && bs[i].start > now ==> bs[j].start <= bs[i].start
  {
    forall i | 0 <= i < |bs|
      ensures bs[i].start <= now || bs[j].start <= bs[i].start
    {
      if i < j {
        assert Start(bs[j]) <= Start(bs[i]);
      } else if k <= i {
        assert Start(bs[i]) <= Start(bs[k]);
      }
    }
  }

  /** With no future booking before a started one at `k`, there is none at all. */
  lemma NoFutureBefore(bs: seq<Booking>, now: int, k: nat)
    requires NonIncreasing(bs, Start) && k < |bs| && bs[k].start < now
    requires forall i :: 0 <= i < k ==> bs[i].start <= now
    ensures forall i :: 0 <= i < |bs| ==> bs[i].start <= now
  {
    forall i | k <= i < |bs|
      ensures bs[i].start <= now
    {
      assert Start(bs[i]) <= Start(bs[k]);
    }
  }

  /** The booking remembered as `next` after looking at the first `upTo` bookings. */
  function NextSeen(bs: seq<Booking>, upTo: nat, now: int): Option<Booking>
    requires upTo <= |bs|
  {
    match LastStartingAfter(bs, upTo, now)
    case None => None
    case Some(j) => Some(bs[j])
  }

  lemma NoneStartedBefore(bs: seq<Booking>, now: int)
    requires forall j :: 0 <= j < |bs| ==> bs[j].start >= now
    ensures FirstStartedBefore(bs, now).None?
  {
  }

  lemma FirstStartedAt(bs: seq<Booking>, now: int, i: nat)
    requires i < |bs| && bs[i].start < now
    requires forall j :: 0 <= j < i ==> bs[j].start >= now
    ensures FirstStartedBefore(bs, now) == Some(i)
  {
  }

  /** `getLastAndNextBooking`: one pass over the item's APPROVED and WAITING
      bookings, latest start first, remembering each future booking as
      `next` and stopping at the first started one, `last`. */
  method GetLastAndNextBooking(db: Database, itemId: int, now: int) returns (r: Result<seq<BookingDto>, Error>)
    ensures r == LastAndNext(FindAllByItemIdAndStatusOrderByStartDesc(db.BookingEntities(), itemId, Approved, Waiting), now)
  {
    var bookings := FindAllByItemIdAndStatusOrderByStartDesc(db.BookingEntities(), itemId, Approved, Waiting);
    r := ScanLastAndNext(bookings, now);
  }

  /** The loop of `getLastAndNextBooking` over the queried bookings. */
  method ScanLastAndNext(bookings: seq<Booking>, now: int) returns (r: Result<seq<BookingDto>, Error>)
    ensures r == LastAndNext(bookings, now)
  {
    if bookings == [] {
      return Ok([]);
    }
    var next: Option<Booking> := None;
    var last: Option<Booking> := None;
    var i := 0;
    while i < |bookings|
      invariant 0 <= i <= |bookings|
      invariant forall j :: 0 <= j < i ==> bookings[j].start >= now
      invariant last.None?
      invariant next == NextSeen(bookings, i, now)
    {
      if bookings[i].start > now {
        next := Some(bookings[i]);
      }
      if bookings[i].start < now {
        last := Some(bookings[i]);
        break;
      }
      i := i + 1;
    }
    if last.None? {
      NoneStartedBefore(bookings, now);
      return Err(NullPointer);
    }
    FirstStartedAt(bookings, now, i);
    assert last.value == bookings[i];
    var lastAndNext := [ToBookingDto(last.value)];
    if next.Some? {
      lastAndNext := lastAndNext + [ToBookingDto(next.value)];
      assert lastAndNext == [ToBookingDto(bookings[i]), ToBookingDto(bookings[LastStartingAfter(bookings, i, now).value])];
    }
    r := Ok(lastAndNext);
  }

  /** What `setCommentsAndBookings` makes of `dto` for `userId`: the item's
      comments always; the last and next booking only for the item's owner,
      the next one only when there are two; the error of `LastAndNext` when
      the owner's item has bookings none of which has started. */
  function Decorated(db: Database, userId: int, dto: ItemDto, now: int): (r: Result<ItemDto, Error>)
    reads db
    requires dto.id.Some? && dto.owner.Some?
    ensures r.Ok? ==> r.value == dto.(comments := Some(GetComments(db, dto.id.value)),
                                     lastBooking := r.value.lastBooking, nextBooking := r.value.nextBooking)
    ensures userId != dto.owner.value.id ==> r == Ok(dto.(comments := Some(GetComments(db, dto.id.value))))
    ensures r.Err? ==> userId == dto.owner.value.id && r.error == NullPointer
  {
    var withComments := dto.(comments := Some(GetComments(db, dto.id.value)));
    if userId != dto.owner.value.id then Ok(withComments)
    else
      match LastAndNext(FindAllByItemIdAndStatusOrderByStartDesc(db.BookingEntities(), dto.id.value, Approved, Waiting), now)
      case Err(e) => Err(e)
      case Ok(found) =>
        Ok(withComments.(lastBooking := if |found| >= 1 then Some(found[0]) else dto.lastBooking,
                         nextBooking := if |found| >= 2 then Some(found[1]) else dto.nextBooking))
  }

  /** `setCommentsAndBookings`. */
  method SetCommentsAndBookings(db: Database, userId: int, dto: ItemDto, now: int) returns (r: Result<ItemDto, Error>)
    requires dto.id.Some? && dto.owner.Some?
    ensures r == Decorated(db, userId, dto, now)
    ensures r.Ok? ==>
      r.value.id == dto.id && r.value.owner == dto.owner && r.value.comments == Some(GetComments(db, dto.id.value))
    ensures r.Err? ==> r.error == NullPointer
  {
    var item := dto.(comments := Some(GetComments(db, dto.id.value)));
    if userId == item.owner.value.id {
      var lastAndNext := GetLastAndNextBooking(db, item.id.value, now);
      if lastAndNext.Err? {
        return Err(lastAndNext.error);
      }
      var found := lastAndNext.value;
      if found != [] {
        item := item.(lastBooking := Some(found[0]));
        if !(|found| == 1) {
          item := item.(nextBooking := Some(found[1]));
        }
      }
    }
    r := Ok(item);
  }

  /** `getItemById`: the viewer and the item must exist; the item comes
      with its comments, and with its last and next booking when the viewer
      owns it. */
  method GetItemById(db: Database, itemId: int, userId: int, now: int) returns (r: Result<ItemDto, Error>)
    ensures userId !in db.users ==> r == Err(BookingService.UserNotFound(userId))
    ensures userId in db.users && FindItem(db.ItemEntities(), itemId).None? ==> r == Err(BookingService.ItemNotFound(itemId))
    ensures r.Ok? ==> userId in db.users && FindItem(db.ItemEntities(), itemId).Some?
    ensures r.Ok? ==> r.value.id == Some(itemId) && r.value.comments == Some(GetComments(db, itemId))
    ensures r.Ok? ==> var item := FindItem(db.ItemEntities(), itemId).value;
      && r.value.name == Some(item.name) && r.value.description == Some(item.description)
      && r.value.available == Some(item.available) && r.value.owner == Some(item.owner)
    ensures r.Ok? && FindItem(db.ItemEntities(), itemId).value.owner.id != userId ==>
      r.value.lastBooking.None? && r.value.nextBooking.None?
    ensures userId in db.users && FindItem(db.ItemEntities(), itemId).Some? ==>
      r == Decorated(db, userId, ToItemDto(FindItem(db.ItemEntities(), itemId).value), now)
  {
    var user := BookingService.CheckUser(db, userId);
    if user.Err? {
      return Err(user.error);
    }
    var item := BookingService.CheckItem(db, itemId);
    if item.Err? {
      return Err(item.error);
    }
    r := SetCommentsAndBookings(db, userId, ToItemDto(item.value), now);
  }

  /** `getAllByUserId`: the owner's items in table order, each with its
      comments and its last and next booking. */
  method GetAllByUserId(db: Database, userId: int, now: int) returns (r: Result<seq<ItemDto>, Error>)
    ensures userId !in db.users ==> r == Err(BookingService.UserNotFound(userId))
    ensures r.Err? ==> r == Err(BookingService.UserNotFound(userId)) || r == Err(NullPointer)
    ensures r.Ok? ==> var items := FindAllByOwnerId(db.ItemEntities(), userId);
      && |r.value| == |items|
      && forall k :: 0 <= k < |items| ==>
           && r.value[k].id == Some(items[k].id)
           && r.value[k].owner == Some(items[k].owner)
           && r.value[k].comments == Some(GetComments(db, items[k].id))
    ensures r.Ok? ==> var items := FindAllByOwnerId(db.ItemEntities(), userId);
      forall k :: 0 <= k < |items| ==> Decorated(db, userId, ToItemDto(items[k]), now) == Ok(r.value[k])
    ensures userId in db.users && r.Err? ==> var items := FindAllByOwnerId(db.ItemEntities(), userId);
      exists k :: 0 <= k < |items| && Decorated(db, userId, ToItemDto(items[k]), now) == Err(NullPointer)
  {
    var user := BookingService.CheckUser(db, userId);
    if user.Err? {
      return Err(user.error);
    }
    r := DecorateAll(db, userId, FindAllByOwnerId(db.ItemEntities(), userId), now);
  }

  /** The loop of `getAllByUserId` over the owner's items: each item's DTO
      with its comments and bookings, stopping at the first error. */
  method DecorateAll(db: Database, userId: int, owned: seq<Item>, now: int) returns (r: Result<seq<ItemDto>, Error>)
    ensures r.Err? ==> r == Err(NullPointer)
    ensures r.Ok? ==>
      && |r.value| == |owned|
      && forall k :: 0 <= k < |owned| ==>
           && r.value[k].id == Some(owned[k].id)
           && r.value[k].owner == Some(owned[k].owner)
           && r.value[k].comments == Some(GetComments(db, owned[k].id))
    ensures r.Ok? ==>
      forall k :: 0 <= k < |owned| ==> Decorated(db, userId, ToItemDto(owned[k]), now) == Ok(r.value[k])
    ensures r.Err? ==>
      exists k :: 0 <= k < |owned| && Decorated(db, userId, ToItemDto(owned[k]), now) == Err(NullPointer)
  {
    var items := ItemDtos(owned);
    var itemOut: seq<ItemDto> := [];
    for k := 0 to |items|
      invariant |itemOut| == k
      invariant forall j :: 0 <= j < k ==> Decorated(db, userId, items[j], now) == Ok(itemOut[j])
    {
      var withBookings := SetCommentsAndBookings(db, userId, items[k], now);
      if withBookings.Err? {
        assert items[k] == ToItemDto(owned[k]);
        return Err(withBookings.error);
      }
      itemOut := itemOut + [withBookings.value];
    }
    DecoratedKeepItems(db, userId, owned, now, itemOut);
    r := Ok(itemOut);
  }

  /** Decorating keeps each item's id and owner and adds its comments. */
  lemma DecoratedKeepItems(db: Database, userId: int, owned: seq<Item>, now: int, out: seq<ItemDto>)
    requires |out| == |owned|
    requires forall k :: 0 <= k < |owned| ==> Decorated(db, userId, ToItemDto(owned[k]), now) == Ok(out[k])
    ensures forall k :: 0 <= k < |owned| ==>
      && out[k].id == Some(owned[k].id)
      && out[k].owner == Some(owned[k].owner)
      && out[k].comments == Some(GetComments(db, owned[k].id))
  {
  }
}
