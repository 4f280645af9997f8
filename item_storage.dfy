/** `ItemStorageInMemory`: the in-memory item store of the earlier,
    database-less revision: items by id, each owner's item ids in creation
    order, and the next id to hand out. */
module ItemStorage {
  import opened Wrappers
  import opened Domain
  import opened Text
  import opened Sequences

  function IntKey(k: int): int { k }

  /** `List.remove(Object)`: drops the first occurrence of `x`, if any. */
  function RemoveFirst(s: seq<int>, x: int): (r: seq<int>)
    ensures x !in s ==> r == s
    ensures x in s ==> multiset(r) == multiset(s) - multiset{x} && |r| == |s| - 1
  {
    match IndexOf(s, x, IntKey)
    case None => s
    case Some(k) =>
      assert s == s[..k] + [s[k]] + s[k + 1..];
      s[..k] + s[k + 1..]
  }

  /** Removing from an increasing list keeps it increasing and bounded,
      keeps only its own elements, and leaves no copy of the removed id. */
  lemma RemoveFirstKeeps(s: seq<int>, x: int, bound: int)
    requires StrictlyIncreasing(s, IntKey) && KeysBelow(s, IntKey, bound)
    ensures StrictlyIncreasing(RemoveFirst(s, x), IntKey) && KeysBelow(RemoveFirst(s, x), IntKey, bound)
    ensures forall v :: v in RemoveFirst(s, x) ==> v in s
    ensures x !in RemoveFirst(s, x)
  {
    match IndexOf(s, x, IntKey) {
      case None =>
      case Some(k) =>
        RemoveKeepsKeys(s, k, IntKey, bound);
        var rest := s[..k] + s[k + 1..];
        assert RemoveFirst(s, x) == rest;
        forall a | 0 <= a < |rest|
          ensures rest[a] in s && rest[a] != x
        {
          if a < k {
            assert rest[a] == s[a] && IntKey(s[a]) < IntKey(s[k]);
          } else {
            assert rest[a] == s[a + 1] && IntKey(s[k]) < IntKey(s[a + 1]);
          }
        }
    }
  }

  /** Removing `x` keeps every other element. */
  lemma RemoveFirstKeepsOthers(s: seq<int>, x: int)
    ensures forall v :: v in s && v != x ==> v in RemoveFirst(s, x)
  {
    match IndexOf(s, x, IntKey) {
      case None =>
      case Some(k) =>
        var rest := s[..k] + s[k + 1..];
        assert RemoveFirst(s, x) == rest;
        forall m | 0 <= m < |s| && s[m] != x ensures s[m] in rest {
          if m < k {
            assert rest[m] == s[m];
          } else {
            assert rest[m - 1] == s[m];
          }
        }
    }
  }

  /** The search predicate of this store: the item is available and its
      lower-cased name or description contains `text` as given. */
  predicate StorageMatches(item: Item, text: string)
  {
    item.available && (Contains(Lower(item.name), text) || Contains(Lower(item.description), text))
  }

  /** A text with a capital letter in it matches no item here, since only
      the item's side is lower-cased. */
  lemma CapitalTextNeverMatches(item: Item, text: string, at: nat)
    requires at < |text| && LowerChar(text[at]) != text[at]
    ensures !StorageMatches(item, text)
  {
    FoundInLowerIsLower(item.name, text);
    FoundInLowerIsLower(item.description, text);
  }

  /** Whatever occurs in a lower-cased string is itself lower-case. */
  lemma FoundInLowerIsLower(s: string, text: string)
    ensures Contains(Lower(s), text) ==> forall k :: 0 <= k < |text| ==> LowerChar(text[k]) == text[k]
  {
    if Contains(Lower(s), text) {
      var i := ContainsWitness(Lower(s), text);
      forall k | 0 <= k < |text| ensures LowerChar(text[k]) == text[k] {
        assert Lower(s)[i + k] == text[k];
      }
    }
  }

  /** What every operation of the store keeps: items are stored under
      their own id, below the counter `id`, and each owner's list is
      increasing and below the counter. A list may still name an item that
      is gone or has changed owner. */
  ghost predicate WellFormed(items: map<int, Item>, lists: map<int, seq<int>>, id: int)
  {
    && 0 < id
    && (forall k :: k in items ==> items[k].id == k && 0 < k < id)
    && (forall u :: u in lists ==> StrictlyIncreasing(lists[u], IntKey) && KeysBelow(lists[u], IntKey, id))
  }

  /** A well-formed store whose lists are exact: each owner's list holds the
      ids of exactly that owner's stored items. */
  ghost predicate Consistent(items: map<int, Item>, lists: map<int, seq<int>>, id: int)
  {
    && WellFormed(items, lists, id)
    && (forall u, j :: u in lists && 0 <= j < |lists[u]| ==> lists[u][j] in items && items[lists[u][j]].owner.id == u)
    && (forall k :: k in items ==> items[k].owner.id in lists && k in lists[items[k].owner.id])
  }

  /** The id list of user `u`; none for a user who never created an item. */
  function IdsOf(lists: map<int, seq<int>>, u: int): seq<int>
  {
    if u in lists then lists[u] else []
  }

  /** Storing a new item under the counter and appending its id to its
      owner's list keeps the store well-formed with the counter moved on. */
  lemma CreateKeepsWellFormed(items: map<int, Item>, lists: map<int, seq<int>>, id: int, item: Item)
    requires WellFormed(items, lists, id)
    ensures WellFormed(items[id := item.(id := id)], lists[item.owner.id := IdsOf(lists, item.owner.id) + [id]], id + 1)
  {
    AppendIncreasing(IdsOf(lists, item.owner.id), id, IntKey, id);
    var lists' := lists[item.owner.id := IdsOf(lists, item.owner.id) + [id]];
    forall u | u in lists'
      ensures StrictlyIncreasing(lists'[u], IntKey) && KeysBelow(lists'[u], IntKey, id + 1)
    {
    }
  }

  /** The same step keeps the lists exact. */
  lemma CreateKeepsConsistent(items: map<int, Item>, lists: map<int, seq<int>>, id: int, item: Item)
    requires Consistent(items, lists, id)
    ensures Consistent(items[id := item.(id := id)], lists[item.owner.id := IdsOf(lists, item.owner.id) + [id]], id + 1)
  {
    CreateKeepsWellFormed(items, lists, id, item);
    var items' := items[id := item.(id := id)];
    var lists' := lists[item.owner.id := IdsOf(lists, item.owner.id) + [id]];
    forall u, j | u in lists' && 0 <= j < |lists'[u]|
      ensures lists'[u][j] in items' && items'[lists'[u][j]].owner.id == u
    {
      if u == item.owner.id && j < |IdsOf(lists, u)| {
        assert lists'[u][j] == IdsOf(lists, u)[j];
      }
    }
    forall k | k in items' ensures items'[k].owner.id in lists' && k in lists'[items'[k].owner.id] {
      if k != id {
        var owner := items[k].owner.id;
        var j :| 0 <= j < |lists[owner]| && lists[owner][j] == k;
        if owner == item.owner.id {
          assert lists'[owner][j] == k;
        }
      } else {
        assert lists'[item.owner.id][|IdsOf(lists, item.owner.id)|] == id;
      }
    }
  }

  /** Deleting any id through any user's list keeps the store well-formed. */
  lemma DeleteKeepsWellFormed(items: map<int, Item>, lists: map<int, seq<int>>, id: int, userId: int, itemId: int)
    requires WellFormed(items, lists, id) && userId in lists
    ensures WellFormed(items - {itemId}, lists[userId := RemoveFirst(lists[userId], itemId)], id)
  {
    RemoveFirstKeeps(lists[userId], itemId, id);
  }

  /** Deleting an item through a user who does not own it leaves the id in
      its owner's list while the item itself is gone: that list now names
      a missing item. */
  lemma NonOwnerDeleteLeavesDanglingId(items: map<int, Item>, lists: map<int, seq<int>>, id: int, userId: int, itemId: int)
    requires Consistent(items, lists, id) && userId in lists
    requires itemId in items && items[itemId].owner.id != userId
    ensures var lists' := lists[userId := RemoveFirst(lists[userId], itemId)];
      var owner := items[itemId].owner.id;
      && owner in lists' && itemId in lists'[owner] && itemId !in items - {itemId}
      && !Consistent(items - {itemId}, lists', id)
  {
    var lists' := lists[userId := RemoveFirst(lists[userId], itemId)];
    var owner := items[itemId].owner.id;
    assert lists'[owner] == lists[owner];
    var j :| 0 <= j < |lists'[owner]| && lists'[owner][j] == itemId;
  }

  /** Deleting an item of `userId` from the map and from that user's list
      keeps the store consistent. */
  lemma DeleteKeepsConsistent(items: map<int, Item>, lists: map<int, seq<int>>, id: int, userId: int, itemId: int)
    requires Consistent(items, lists, id) && userId in lists
    requires itemId !in items || items[itemId].owner.id == userId
    ensures Consistent(items - {itemId}, lists[userId := RemoveFirst(lists[userId], itemId)], id)
  {
    var rest := RemoveFirst(lists[userId], itemId);
    RemoveFirstKeeps(lists[userId], itemId, id);
    RemoveFirstKeepsOthers(lists[userId], itemId);
    var lists' := lists[userId := rest];
    var items' := items - {itemId};
    forall u, j | u in lists' && 0 <= j < |lists'[u]|
      ensures lists'[u][j] in items' && items'[lists'[u][j]].owner.id == u
    {
      var v := lists'[u][j];
      if u == userId {
        assert v in rest;
        var k :| 0 <= k < |lists[u]| && lists[u][k] == v;
      } else {
        assert v == lists[u][j];
      }
    }
  }

  /** In a consistent store, the items read through an owner's list are all
      of that owner's items. */
  lemma OwnedItemsListed(items: map<int, Item>, lists: map<int, seq<int>>, id: int, userId: int, r: seq<Option<Item>>)
    requires userId in lists ==>
      |r| == |lists[userId]| && forall j :: 0 <= j < |r| ==> lists[userId][j] in items ==> r[j] == Some(items[lists[userId][j]])
    ensures Consistent(items, lists, id) ==> forall k :: k in items && items[k].owner.id == userId ==> Some(items[k]) in r
  {
    if Consistent(items, lists, id) {
      forall k | k in items && items[k].owner.id == userId ensures Some(items[k]) in r {
        var j :| 0 <= j < |lists[userId]| && lists[userId][j] == k;
        assert r[j] == Some(items[k]);
      }
    }
  }

  class ItemStorageInMemory {
    var items: map<int, Item>
    var userToItemIds: map<int, seq<int>>
    var id: int

    /** Items are stored under their own id, below the counter; each owner's
        list is increasing and below the counter. */
    ghost predicate Valid()
      reads this
    {
      WellFormed(items, userToItemIds, id)
    }

    /** Each owner's list holds exactly the ids of that owner's stored items. */
    ghost predicate Indexed()
      reads this
    {
      Consistent(items, userToItemIds, id)
    }

    constructor ()
      ensures Indexed()
      ensures items == map[] && userToItemIds == map[] && id == 1
    {
      items, userToItemIds, id := map[], map[], 1;
    }

    function OwnedIds(userId: int): seq<int>
      reads this
    {
      IdsOf(userToItemIds, userId)
    }

    /** `createItem`: the item gets the counter as its id, is stored, and
        its id goes to the end of its owner's list; the counter moves on. */
    method CreateItem(item: Item) returns (r: Item)
      requires Valid()
      modifies this
      ensures Valid()
      ensures old(Indexed()) ==> Indexed()
      ensures r == item.(id := old(id)) && old(id) !in old(items)
      ensures items == old(items)[r.id := r]
      ensures userToItemIds == old(userToItemIds)[item.owner.id := old(OwnedIds(item.owner.id)) + [r.id]]
      ensures id == old(id) + 1
      ensures GetItemById(r.id) == Ok(r)
    {
      var saved := item.(id := id);
      var list := OwnedIds(item.owner.id);
      CreateKeepsWellFormed(items, userToItemIds, id, item);
      if Indexed() {
        CreateKeepsConsistent(items, userToItemIds, id, item);
      }
      items := items[id := saved];
      userToItemIds := userToItemIds[item.owner.id := list + [id]];
      id := id + 1;
      r := saved;
    }

    /** `updateItem`: replaces a stored item; an unknown id is an error. The
        lists are not touched, so the store stays well-formed, and its lists
        stay exact when the owner is unchanged. */
    method UpdateItem(item: Item) returns (r: Result<Item, Error>)
      requires Valid()
      modifies this`items
      ensures item.id in old(items) ==> r == Ok(item) && items == old(items)[item.id := item]
      ensures item.id !in old(items) ==>
        r == Err(ObjectNotFound("Вещь с айди " + IntToString(item.id) + " не найдена.")) && items == old(items)
      ensures Valid()
      ensures old(Indexed()) && (item.id !in old(items) || old(items)[item.id].owner.id == item.owner.id) ==> Indexed()
    {
      if item.id in items {
        items := items[item.id := item];
        return Ok(item);
      }
      r := Err(ObjectNotFound("Вещь с айди " + IntToString(item.id) + " не найдена."));
    }

    /** `deleteItem`: drops `itemId` from `userId`'s list and the item from
        the map; a user without a list makes `get` return null, which is
        dereferenced. The store stays well-formed, and its lists stay exact
        when `userId` owns the item (see `NonOwnerDeleteLeavesDanglingId`). */
    method DeleteItem(userId: int, itemId: int) returns (r: Outcome<Error>)
      requires Valid()
      modifies this`items, this`userToItemIds
      ensures userId !in old(userToItemIds) ==>
        r == Fail(NullPointer) && items == old(items) && userToItemIds == old(userToItemIds)
      ensures userId in old(userToItemIds) ==>
        && r == Pass
        && userToItemIds == old(userToItemIds)[userId := RemoveFirst(old(userToItemIds)[userId], itemId)]
        && items == old(items) - {itemId}
      ensures Valid()
      ensures old(Indexed()) && (itemId !in old(items) || old(items)[itemId].owner.id == userId) ==> Indexed()
    {
      if userId !in userToItemIds {
        return Fail(NullPointer);
      }
      DeleteKeepsWellFormed(items, userToItemIds, id, userId, itemId);
      if Indexed() && (itemId !in items || items[itemId].owner.id == userId) {
        DeleteKeepsConsistent(items, userToItemIds, id, userId, itemId);
      }
      userToItemIds := userToItemIds[userId := RemoveFirst(userToItemIds[userId], itemId)];
      items := items - {itemId};
      r := Pass;
    }

    /** `getItemById`. */
    function GetItemById(itemId: int): (r: Result<Item, Error>)
      reads this
      ensures r.Ok? <==> itemId in items
      ensures r.Ok? ==> r.value == items[itemId]
      ensures r.Err? ==> r.error == ObjectNotFound("Вещь с id " + IntToString(itemId) + " не найдена")
    {
      if itemId in items then Ok(items[itemId])
      else Err(ObjectNotFound("Вещь с id " + IntToString(itemId) + " не найдена"))
    }

    /** `getAllByUserId`: the items read through the user's list, in
        creation (id) order, `None` standing for the null `items.get` gives
        for an id no longer stored; none for a user who never created one.
        When the lists are exact, these are exactly the user's stored items,
        with no null among them. */
    function GetAllByUserId(userId: int): (r: seq<Option<Item>>)
      requires Valid()
      reads this
      ensures userId !in userToItemIds ==> r == []
      ensures |r| == |OwnedIds(userId)|
      ensures forall j :: 0 <= j < |r| ==> (r[j].None? <==> OwnedIds(userId)[j] !in items)
      ensures forall j :: 0 <= j < |r| && r[j].Some? ==> r[j].value in items.Values && r[j].value.id == OwnedIds(userId)[j]
      ensures forall i, j :: 0 <= i < j < |r| && r[i].Some? && r[j].Some? ==> r[i].value.id < r[j].value.id
      ensures Indexed() ==> forall j :: 0 <= j < |r| ==> r[j].Some? && r[j].value.owner.id == userId
      ensures Indexed() ==> forall k :: k in items && items[k].owner.id == userId ==> Some(items[k]) in r
    {
      var ids := OwnedIds(userId);
      var stored := items;
      var r := seq(|ids|, j requires 0 <= j < |ids| => if ids[j] in stored then Some(stored[ids[j]]) else None);
      OwnedItemsListed(stored, userToItemIds, id, userId, r);
      r
    }

    /** `getByText`: the available items whose lower-cased name or
        description contains `text`; the map's values carry no order. */
    function GetByText(text: string): (r: set<Item>)
      reads this
      ensures forall k :: k in items ==> (items[k] in r <==> StorageMatches(items[k], text))
      ensures forall i :: i in r ==> i in items.Values && StorageMatches(i, text)
    {
      set k | k in items && StorageMatches(items[k], text) :: items[k]
    }
  }
}
