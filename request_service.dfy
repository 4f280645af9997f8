/** `ItemRequestServiceImpl`: opening item requests, listing them with the
    items offered for them, and reading one request. */
module RequestService {
  import opened Wrappers
  import opened Domain
  import opened Text
  import opened Sequences
  import opened Paging
  import opened Database
  import opened ItemMapper
  import opened ItemRepository
  import opened RequestMapper
  import BookingService

  // ------------------------------------------------------------ lookups

  function RequestNotFound(requestId: int): Error
  {
    ObjectNotFound("Запрос с id " + IntToString(requestId) + " не найден")
  }

  /** `checkRequest`: the stored request with this id, or not-found. */
  function CheckRequest(db: Database, requestId: int): (r: Result<ItemRequest, Error>)
    reads db
    ensures r.Ok? ==> r.value in db.requests && RequestKey(r.value) == requestId
    ensures r.Err? <==> forall q :: q in db.requests ==> RequestKey(q) != requestId
    ensures r.Err? ==> r.error == RequestNotFound(requestId)
  {
    match IndexOf(db.requests, requestId, RequestKey)
    case Some(k) => Ok(db.requests[k])
    case None => Err(RequestNotFound(requestId))
  }

  /** `findAllByRequester_Id`: the requests opened by `userId`, in table order. */
  function FindAllByRequesterId(requests: seq<ItemRequest>, userId: int): (r: seq<ItemRequest>)
    ensures forall q :: q in r <==> q in requests && q.requester.Some? && q.requester.value.id == userId
  {
    Select(requests, (q: ItemRequest) => q.requester.Some? && q.requester.value.id == userId)
  }

  /** The rows of `findByRequesterIdNot`: requests with a requester other
      than `userId` (a request without a requester compares as unknown in
      SQL and is not selected). */
  function FindByRequesterIdNot(requests: seq<ItemRequest>, userId: int): (r: seq<ItemRequest>)
    ensures forall q :: q in r <==> q in requests && q.requester.Some? && q.requester.value.id != userId
  {
    Select(requests, (q: ItemRequest) => q.requester.Some? && q.requester.value.id != userId)
  }

  function Created(q: ItemRequest): int { q.created }

  // ------------------------------------------------ items for requests

  /** `ItemOutDto` as the service receives it: the item's fields with the id
      of the request it answers. */
  function ToItemOutDto(item: Item): (r: ItemDto)
    ensures r.id == Some(item.id) && r.name == Some(item.name) && r.description == Some(item.description)
    ensures r.available == Some(item.available) && r.owner == Some(item.owner)
    ensures r.request == item.request
  {
    ToItemDto(item).(request := item.request)
  }

  /** The items converted one by one, in order. */
  function ItemOutDtos(items: seq<Item>): (r: seq<ItemDto>)
    ensures |r| == |items|
    ensures forall k :: 0 <= k < |r| ==> r[k] == ToItemOutDto(items[k])
  {
    seq(|items|, k requires 0 <= k < |items| => ToItemOutDto(items[k]))
  }

  lemma InItemOutDtos(items: seq<Item>, d: ItemDto)
    ensures d in ItemOutDtos(items) <==> exists i :: i in items && d == ToItemOutDto(i)
  {
    var r := ItemOutDtos(items);
    if exists i :: i in items && d == ToItemOutDto(i) {
      var i :| i in items && d == ToItemOutDto(i);
      var k :| 0 <= k < |items| && items[k] == i;
      assert r[k] == d;
    }
  }

  /** The ids of the listed requests; a DTO without an id adds `null` to the
      `IN` list of the query, which matches nothing, so it is left out. */
  function RequestIds(dtos: seq<ItemRequestOutDto>): (r: seq<int>)
    ensures forall id :: id in r <==> exists k :: 0 <= k < |dtos| && dtos[k].id == Some(id)
    decreases |dtos|
  {
    if dtos == [] then []
    else
      var rest := RequestIds(dtos[1..]);
      assert forall id :: (exists k :: 0 <= k < |dtos| && dtos[k].id == Some(id)) <==>
        dtos[0].id == Some(id) || exists k :: 0 <= k < |dtos[1..]| && dtos[1..][k].id == Some(id)
      by {
        forall id | exists k :: 0 <= k < |dtos| && dtos[k].id == Some(id)
          ensures dtos[0].id == Some(id) || exists k :: 0 <= k < |dtos[1..]| && dtos[1..][k].id == Some(id)
        {
          var k :| 0 <= k < |dtos| && dtos[k].id == Some(id);
          if k > 0 {
            assert dtos[1..][k - 1].id == Some(id);
          }
        }
      }
      (if dtos[0].id.Some? then [dtos[0].id.value] else []) + rest
  }

  /** The items offered for the listed requests (`findByRequestIdIn`), converted. */
  function ItemsOffered(items: seq<Item>, dtos: seq<ItemRequestOutDto>): (r: seq<ItemDto>)
    ensures forall d :: d in r ==> d.request.Some?
  {
    var found := FindByRequestIdIn(items, RequestIds(dtos));
    var r := ItemOutDtos(found);
    assert forall k :: 0 <= k < |r| ==> r[k].request == found[k].request;
    r
  }

  /** The items of `itemDtos` offered for request `id`, in their order. */
  function Group(itemDtos: seq<ItemDto>, id: int): (r: seq<ItemDto>)
    ensures forall d :: d in r <==> d in itemDtos && d.request == Some(id)
  {
    Select(itemDtos, (d: ItemDto) => d.request == Some(id))
  }

  /** The DTO at `k` has an id and is the last in the list with that id: the
      one `requests.put` leaves in the map. */
  predicate LastWithId(dtos: seq<ItemRequestOutDto>, k: nat)
    requires k < |dtos|
  {
    dtos[k].id.Some? && forall j :: k < j < |dtos| ==> dtos[j].id != dtos[k].id
  }

  /** The DTO at `k` once the items are attached: every DTO gets an empty
      list when no item is offered at all; the last DTO with a given id gets
      the items offered for it when there are any; the rest keep `items`. */
  function AttachedAt(dtos: seq<ItemRequestOutDto>, itemDtos: seq<ItemDto>, k: nat): ItemRequestOutDto
    requires k < |dtos|
  {
    var d := if itemDtos == [] then dtos[k].(items := Some([])) else dtos[k];
    if LastWithId(dtos, k) && Group(itemDtos, dtos[k].id.value) != [] then
      d.(items := Some(Group(itemDtos, dtos[k].id.value)))
    else d
  }

  /** The whole list once the items are attached. */
  function Attached(dtos: seq<ItemRequestOutDto>, itemDtos: seq<ItemDto>): (r: seq<ItemRequestOutDto>)
    ensures |r| == |dtos|
    ensures forall k :: 0 <= k < |r| ==> r[k] == AttachedAt(dtos, itemDtos, k)
  {
    seq(|dtos|, k requires 0 <= k < |dtos| => AttachedAt(dtos, itemDtos, k))
  }

  /** Attaching changes the `items` of a DTO and nothing else. */
  lemma AttachChangesOnlyItems(dtos: seq<ItemRequestOutDto>, itemDtos: seq<ItemDto>, k: nat)
    requires k < |dtos|
    ensures Attached(dtos, itemDtos)[k] == dtos[k].(items := Attached(dtos, itemDtos)[k].items)
  {
  }

  /** With no item offered at all, every request lists no items. */
  lemma NoItemsMeansEmptyLists(dtos: seq<ItemRequestOutDto>, k: nat)
    requires k < |dtos|
    ensures Attached(dtos, [])[k].items == Some([])
  {
  }

  /** When some items are offered, a request none of them answers keeps
      `items` unset. */
  lemma RequestWithoutItemsKeepsNull(dtos: seq<ItemRequestOutDto>, itemDtos: seq<ItemDto>, k: nat)
    requires k < |dtos| && itemDtos != [] && dtos[k].items.None?
    requires forall d :: d in itemDtos ==> d.request != dtos[k].id
    ensures Attached(dtos, itemDtos)[k].items.None?
  {
    if dtos[k].id.Some? {
      SelectNone(itemDtos, (d: ItemDto) => d.request == Some(dtos[k].id.value));
    }
  }

  /** The last DTO with an id lists exactly the items offered for that id,
      in their order. */
  lemma AttachedItemsOfLast(dtos: seq<ItemRequestOutDto>, itemDtos: seq<ItemDto>, k: nat)
    requires k < |dtos| && LastWithId(dtos, k)
    requires exists d :: d in itemDtos && d.request == dtos[k].id
    ensures Attached(dtos, itemDtos)[k].items == Some(Group(itemDtos, dtos[k].id.value))
  {
    var d :| d in itemDtos && d.request == dtos[k].id;
    assert d in Group(itemDtos, dtos[k].id.value);
  }

  /** Distinct ids make every DTO with an id the last with it. */
  lemma DistinctIdsAreLast(dtos: seq<ItemRequestOutDto>, k: nat)
    requires k < |dtos| && dtos[k].id.Some?
    requires forall i, j :: 0 <= i < j < |dtos| ==> dtos[i].id != dtos[j].id
    ensures LastWithId(dtos, k)
  {
  }

  // ---------------------------------------------------- the imperative part

  /** Appending an item to the list extends its own group only. */
  lemma GroupStep(itemDtos: seq<ItemDto>, i: nat, id: int)
    requires i < |itemDtos|
    ensures Group(itemDtos[..i + 1], id) ==
      Group(itemDtos[..i], id) + (if itemDtos[i].request == Some(id) then [itemDtos[i]] else [])
  {
    assert itemDtos[..i + 1] == itemDtos[..i] + [itemDtos[i]];
    SelectAppend(itemDtos[..i], [itemDtos[i]], (d: ItemDto) => d.request == Some(id));
    assert [itemDtos[i]][1..] == [];
  }

  /** `groups` holds, under each request id, the items among the first `i`
      offered for it, and no other key. */
  ghost predicate GroupedUpTo(groups: map<int, seq<ItemDto>>, itemDtos: seq<ItemDto>, i: nat)
    requires i <= |itemDtos|
  {
    && (forall id :: id in groups <==> Group(itemDtos[..i], id) != [])
    && (forall id :: id in groups ==> groups[id] == Group(itemDtos[..i], id))
  }

  /** Adding the next item to its group keeps the grouping exact. */
  lemma GroupedStep(groups: map<int, seq<ItemDto>>, itemDtos: seq<ItemDto>, i: nat)
    requires i < |itemDtos| && itemDtos[i].request.Some? && GroupedUpTo(groups, itemDtos, i)
    ensures var key := itemDtos[i].request.value;
      GroupedUpTo(groups[key := (if key in groups then groups[key] else []) + [itemDtos[i]]], itemDtos, i + 1)
  {
    var key := itemDtos[i].request.value;
    var next := groups[key := (if key in groups then groups[key] else []) + [itemDtos[i]]];
    forall id
      ensures id in next <==> Group(itemDtos[..i + 1], id) != []
      ensures id in next ==> next[id] == Group(itemDtos[..i + 1], id)
    {
      GroupStep(itemDtos, i, id);
      var before := Group(itemDtos[..i], id);
      if id == key {
        assert (if key in groups then groups[key] else []) == before;
        assert Group(itemDtos[..i + 1], id) == before + [itemDtos[i]];
      } else {
        assert Group(itemDtos[..i + 1], id) == before;
        assert id in next <==> id in groups;
      }
    }
  }

  /** `items.computeIfAbsent(requestId, …).add(itemDto)` over the list: the
      items grouped by request id, each group in list order. */
  method GroupByRequest(itemDtos: seq<ItemDto>) returns (groups: map<int, seq<ItemDto>>)
    requires forall d :: d in itemDtos ==> d.request.Some?
    ensures forall id :: id in groups <==> Group(itemDtos, id) != []
    ensures forall id :: id in groups ==> groups[id] == Group(itemDtos, id)
  {
    groups := map[];
    for i := 0 to |itemDtos|
      invariant GroupedUpTo(groups, itemDtos, i)
    {
      var key := itemDtos[i].request.value;
      GroupedStep(groups, itemDtos, i);
      var group := if key in groups then groups[key] else [];
      groups := groups[key := group + [itemDtos[i]]];
    }
    assert itemDtos[..|itemDtos|] == itemDtos;
  }

  /** `requests.put(request.getId(), request)` over the list: for every id,
      the position of the last DTO carrying it. */
  method IndexById(dtos: seq<ItemRequestOutDto>) returns (index: map<int, nat>)
    ensures forall id :: id in index <==> exists k :: 0 <= k < |dtos| && dtos[k].id == Some(id)
    ensures forall id :: id in index ==>
      index[id] < |dtos| && dtos[index[id]].id == Some(id) && LastWithId(dtos, index[id])
  {
    index := map[];
    for i := 0 to |dtos|
      invariant forall id :: id in index <==> exists k :: 0 <= k < i && dtos[k].id == Some(id)
      invariant forall id :: id in index ==>
        index[id] < i && dtos[index[id]].id == Some(id) && forall j :: index[id] < j < i ==> dtos[j].id != Some(id)
    {
      if dtos[i].id.Some? {
        index := index[dtos[i].id.value := i];
      }
    }
  }

  /** A non-empty set has an element. */
  lemma NonEmptyHasElement(s: set<int>)
    ensures s != {} ==> exists x :: x in s
  {
    if !(exists x :: x in s) {
      assert s == {};
    }
  }

  /** The last position with an id is unique. */
  lemma LastIsUnique(dtos: seq<ItemRequestOutDto>, k: nat, m: nat)
    requires k < |dtos| && m < |dtos| && LastWithId(dtos, k) && LastWithId(dtos, m)
    requires dtos[k].id == dtos[m].id
    ensures k == m
  {
  }

  /** Every request id of an offered item belongs to a listed DTO. */
  lemma OfferedBelongToListed(items: seq<Item>, dtos: seq<ItemRequestOutDto>, id: int)
    requires Group(ItemsOffered(items, dtos), id) != []
    ensures exists k :: 0 <= k < |dtos| && dtos[k].id == Some(id)
  {
    var found := FindByRequestIdIn(items, RequestIds(dtos));
    var d := Group(ItemsOffered(items, dtos), id)[0];
    assert d in ItemOutDtos(found);
    InItemOutDtos(found, d);
    var i :| i in found && d == ToItemOutDto(i);
    assert id in RequestIds(dtos);
  }

  /** `forEach(dto -> dto.setItems(emptyList()))`. */
  method ClearItems(dtos: array<ItemRequestOutDto>)
    modifies dtos
    ensures forall j :: 0 <= j < dtos.Length ==> dtos[j] == old(dtos[j]).(items := Some([]))
  {
    for k := 0 to dtos.Length
      invariant forall j :: 0 <= j < dtos.Length ==>
        dtos[j] == if j < k then old(dtos[j]).(items := Some([])) else old(dtos[j])
    {
      dtos[k] := dtos[k].(items := Some([]));
    }
  }

  /** `items.forEach((key, value) -> requests.get(key).setItems(value))`:
      each group goes to the DTO the index names for its key, which is the
      last one carrying that id. */
  method AttachGroups(dtos: array<ItemRequestOutDto>, items: map<int, seq<ItemDto>>, requests: map<int, nat>,
                      ghost itemDtos: seq<ItemDto>)
    requires forall id :: id in items <==> Group(itemDtos, id) != []
    requires forall id :: id in items ==> items[id] == Group(itemDtos, id)
    requires forall id :: id in items ==> id in requests
    requires forall id :: id in requests ==>
      requests[id] < dtos.Length && dtos[requests[id]].id == Some(id) && LastWithId(dtos[..], requests[id])
    modifies dtos
    ensures forall j :: 0 <= j < dtos.Length ==>
      dtos[j] ==
      (if old(dtos[j]).id.Some? && Group(itemDtos, old(dtos[j]).id.value) != [] && LastWithId(old(dtos[..]), j)
       then old(dtos[j]).(items := Some(Group(itemDtos, old(dtos[j]).id.value)))
       else old(dtos[j]))
  {
    ghost var cleared := dtos[..];
    var keys := items.Keys;
    while keys != {}
      invariant keys <= items.Keys
      invariant AttachedExcept(dtos[..], cleared, items, keys, itemDtos)
      decreases |keys|
    {
      NonEmptyHasElement(keys);
      var key :| key in keys;
      var at := requests[key];
      AttachStep(dtos[..], cleared, items, keys, itemDtos, key, at);
      dtos[at] := dtos[at].(items := Some(items[key]));
      keys := keys - {key};
    }
  }

  /** `cur` is `cleared` with the group of every key of `items` outside
      `keys` attached to the last DTO carrying that key. */
  ghost predicate AttachedExcept(cur: seq<ItemRequestOutDto>, cleared: seq<ItemRequestOutDto>,
                                 items: map<int, seq<ItemDto>>, keys: set<int>, itemDtos: seq<ItemDto>)
  {
    && |cur| == |cleared|
    && forall j :: 0 <= j < |cur| ==>
         cur[j] ==
         (if cleared[j].id.Some? && cleared[j].id.value in items && cleared[j].id.value !in keys
             && LastWithId(cleared, j)
          then cleared[j].(items := Some(Group(itemDtos, cleared[j].id.value)))
          else cleared[j])
  }

  /** Attaching the group of one more key to its last DTO. */
  lemma AttachStep(cur: seq<ItemRequestOutDto>, cleared: seq<ItemRequestOutDto>, items: map<int, seq<ItemDto>>,
                   keys: set<int>, itemDtos: seq<ItemDto>, key: int, at: nat)
    requires AttachedExcept(cur, cleared, items, keys, itemDtos)
    requires key in keys && key in items && items[key] == Group(itemDtos, key)
    requires at < |cleared| && cleared[at].id == Some(key) && LastWithId(cleared, at)
    ensures AttachedExcept(cur[at := cur[at].(items := Some(items[key]))], cleared, items, keys - {key}, itemDtos)
  {
    forall j | 0 <= j < |cleared| && cleared[j].id == Some(key)
      ensures LastWithId(cleared, j) ==> j == at
    {
      if LastWithId(cleared, j) {
        LastIsUnique(cleared, j, at);
      }
    }
  }


  /** `addItemsToRequests`: sets `items` on the listed DTOs in place, as
      `Attached` describes. */
  method AddItemsToRequests(db: Database, dtos: array<ItemRequestOutDto>)
    modifies dtos
    ensures dtos[..] == Attached(old(dtos[..]), ItemsOffered(db.ItemEntities(), old(dtos[..])))
  {
    AttachOffered(db.ItemEntities(), dtos);
  }

  /** The body of `addItemsToRequests` once `findByRequestIdIn` has the
      stored items `entities` to search. */
  method AttachOffered(entities: seq<Item>, dtos: array<ItemRequestOutDto>)
    modifies dtos
    ensures dtos[..] == Attached(old(dtos[..]), ItemsOffered(entities, old(dtos[..])))
  {
    ghost var before := dtos[..];
    var requestIds := RequestIds(dtos[..]);
    var itemDtos := ItemOutDtos(FindByRequestIdIn(entities, requestIds));
    assert itemDtos == ItemsOffered(entities, before);
    if itemDtos == [] {
      ClearItems(dtos);
    }
    ghost var cleared := dtos[..];
    assert forall j :: 0 <= j < |before| ==> cleared[j].id == before[j].id;
    var items := GroupByRequest(itemDtos);
    var requests := IndexById(dtos[..]);
    forall key | key in items ensures key in requests {
      OfferedBelongToListed(entities, before, key);
      assert exists k :: 0 <= k < |cleared| && cleared[k].id == Some(key);
    }
    AttachGroups(dtos, items, requests, itemDtos);
    AttachedMatches(before, cleared, itemDtos, dtos[..]);
  }

  /** The final state of the loop above is `Attached`. */
  lemma AttachedMatches(before: seq<ItemRequestOutDto>, cleared: seq<ItemRequestOutDto>, itemDtos: seq<ItemDto>,
                        after: seq<ItemRequestOutDto>)
    requires |cleared| == |before| == |after|
    requires forall j :: 0 <= j < |before| ==>
      cleared[j] == if itemDtos == [] then before[j].(items := Some([])) else before[j]
    requires forall j :: 0 <= j < |after| ==>
      after[j] ==
      (if cleared[j].id.Some? && Group(itemDtos, cleared[j].id.value) != [] && LastWithId(cleared, j)
       then cleared[j].(items := Some(Group(itemDtos, cleared[j].id.value)))
       else cleared[j])
    ensures after == Attached(before, itemDtos)
  {
    assert forall i :: 0 <= i < |before| ==> cleared[i].id == before[i].id;
    forall j | 0 <= j < |after| ensures after[j] == AttachedAt(before, itemDtos, j) {
      assert LastWithId(cleared, j) == LastWithId(before, j);
    }
  }

  // ------------------------------------------------------ the operations

  /** Requests converted one by one, in order, with no items yet. */
  function OutDtos(requests: seq<ItemRequest>): (r: seq<ItemRequestOutDto>)
    ensures |r| == |requests|
    ensures forall k :: 0 <= k < |r| ==> r[k] == ToItemRequestOutDto(requests[k])
  {
    seq(|requests|, k requires 0 <= k < |requests| => ToItemRequestOutDto(requests[k]))
  }

  /** An item is offered for a listed DTO that is the last with its id
      exactly when the item answers that id; a DTO that had no items lists
      nothing else. */
  lemma AttachedItemsAre(items: seq<Item>, dtos: seq<ItemRequestOutDto>, k: nat)
    requires k < |dtos| && LastWithId(dtos, k) && dtos[k].items.None?
    ensures var a := Attached(dtos, ItemsOffered(items, dtos))[k];
      && a == dtos[k].(items := a.items)
      && (forall it :: it in items && it.request == dtos[k].id ==> a.items.Some? && ToItemOutDto(it) in a.items.value)
      && (a.items.Some? ==> forall d :: d in a.items.value ==>
            exists it :: it in items && it.request == dtos[k].id && d == ToItemOutDto(it))
  {
    var offered := ItemsOffered(items, dtos);
    var found := FindByRequestIdIn(items, RequestIds(dtos));
    var id := dtos[k].id.value;
    var a := Attached(dtos, offered)[k];
    forall it | it in items && it.request == dtos[k].id
      ensures a.items.Some? && ToItemOutDto(it) in a.items.value
    {
      assert id in RequestIds(dtos);
      assert it in found;
      InItemOutDtos(found, ToItemOutDto(it));
      AttachedItemsOfLast(dtos, offered, k);
    }
    if a.items.Some? {
      forall d | d in a.items.value
        ensures exists it :: it in items && it.request == dtos[k].id && d == ToItemOutDto(it)
      {
        assert d in Group(offered, id);
        InItemOutDtos(found, d);
      }
    }
  }

  /** The list `getAllUsersRequests` answers with. */
  function UsersRequests(db: Database, userId: int): (r: seq<ItemRequestOutDto>)
    reads db
    ensures |r| == |FindAllByRequesterId(db.requests, userId)|
    ensures forall k :: 0 <= k < |r| ==>
      r[k] == ToItemRequestOutDto(FindAllByRequesterId(db.requests, userId)[k]).(items := r[k].items)
  {
    var dtos := OutDtos(FindAllByRequesterId(db.requests, userId));
    Attached(dtos, ItemsOffered(db.ItemEntities(), dtos))
  }

  /** Each of the user's requests lists exactly the items that answer it. */
  lemma UsersRequestsListTheirItems(db: Database, userId: int, k: nat)
    requires db.Valid() && k < |FindAllByRequesterId(db.requests, userId)|
    ensures var q := FindAllByRequesterId(db.requests, userId)[k];
      var a := UsersRequests(db, userId)[k];
      && q.requester.Some? && q.requester.value.id == userId
      && (forall it :: it in db.ItemEntities() && it.request == q.id ==> a.items.Some? && ToItemOutDto(it) in a.items.value)
      && (a.items.Some? ==> forall d :: d in a.items.value ==>
            exists it :: it in db.ItemEntities() && it.request == q.id && d == ToItemOutDto(it))
  {
    var found := FindAllByRequesterId(db.requests, userId);
    var dtos := OutDtos(found);
    assert found[k] in found;
    SelectKeepsIncreasing(db.requests, (q: ItemRequest) => q.requester.Some? && q.requester.value.id == userId, RequestKey);
    forall i | 0 <= i < |found| ensures found[i].id.Some? {
      assert found[i] in db.requests;
    }
    forall i, j | 0 <= i < j < |dtos| ensures dtos[i].id != dtos[j].id {
      assert RequestKey(found[i]) < RequestKey(found[j]);
    }
    DistinctIdsAreLast(dtos, k);
    AttachedItemsAre(db.ItemEntities(), dtos, k);
  }

  /** `getAllUsersRequests`: the caller's requests with the items offered
      for them. */
  method GetAllUsersRequests(db: Database, userId: int) returns (r: Result<seq<ItemRequestOutDto>, Error>)
    ensures userId !in db.users ==> r == Err(BookingService.UserNotFound(userId))
    ensures userId in db.users ==> r == Ok(UsersRequests(db, userId))
  {
    var user := BookingService.CheckUser(db, userId);
    if user.Err? {
      return Err(user.error);
    }
    var listed := ListWithItems(db, FindAllByRequesterId(db.requests, userId));
    return Ok(listed);
  }

  /** The page of other users' requests, newest first. */
  function OthersRequestsPage(db: Database, userId: int, page: PageRequest): (r: seq<ItemRequest>)
    reads db
    ensures IsPage(r, SortDesc(FindByRequesterIdNot(db.requests, userId), Created), page)
    ensures |r| <= page.size
    ensures NonIncreasing(r, Created)
    ensures forall q :: q in r ==> q in db.requests && q.requester.Some? && q.requester.value.id != userId
  {
    var sorted := SortDesc(FindByRequesterIdNot(db.requests, userId), Created);
    PageOfOrdered(sorted, page, Created);
    forall q | q in PageOf(sorted, page) ensures q in FindByRequesterIdNot(db.requests, userId) {
      assert q in multiset(sorted);
    }
    PageOf(sorted, page)
  }

  /** A first page large enough holds every other user's request. */
  lemma FirstPageHoldsAllOthers(db: Database, userId: int, size: nat, q: ItemRequest)
    requires |FindByRequesterIdNot(db.requests, userId)| <= size
    requires q in db.requests && q.requester.Some? && q.requester.value.id != userId
    ensures q in OthersRequestsPage(db, userId, PageRequest(0, size))
  {
    var rows := FindByRequesterIdNot(db.requests, userId);
    var sorted := SortDesc(rows, Created);
    FirstPageIsAll(sorted, size);
    assert q in multiset(rows);
  }

  /** Every other user's request is on the page of some offset `from`, when
      they fit in an `int`. */
  lemma EveryOtherRequestOnSomePage(db: Database, userId: int, size: int, q: ItemRequest)
    requires 0 < size && |FindByRequesterIdNot(db.requests, userId)| < 0x8000_0000
    requires q in db.requests && q.requester.Some? && q.requester.value.id != userId
    ensures exists from :: (0 <= from < |FindByRequesterIdNot(db.requests, userId)| && PageRequestOf(from, size).Ok?
      && q in OthersRequestsPage(db, userId, PageRequestOf(from, size).value))
  {
    var sorted := SortDesc(FindByRequesterIdNot(db.requests, userId), Created);
    assert q in multiset(FindByRequesterIdNot(db.requests, userId));
    OnSomePage(sorted, size, q);
  }

  /** The list `getAllRequests` answers with for a valid page: the page of
      other users' requests, each converted and with its items attached. */
  function AllRequests(db: Database, userId: int, page: PageRequest): (r: seq<ItemRequestOutDto>)
    reads db
    ensures |r| == |OthersRequestsPage(db, userId, page)|
    ensures forall k :: 0 <= k < |r| ==>
      r[k] == ToItemRequestOutDto(OthersRequestsPage(db, userId, page)[k]).(items := r[k].items)
    ensures forall i, j :: 0 <= i < j < |r| ==> r[i].created >= r[j].created
  {
    var rows := OthersRequestsPage(db, userId, page);
    var dtos := OutDtos(rows);
    AttachedKeepsRows(rows, ItemsOffered(db.ItemEntities(), dtos));
    Attached(dtos, ItemsOffered(db.ItemEntities(), dtos))
  }

  /** The attached list of some requests' DTOs is, entry by entry, those
      DTOs with their items set, and keeps the requests' order by creation. */
  lemma AttachedKeepsRows(rows: seq<ItemRequest>, itemDtos: seq<ItemDto>)
    requires NonIncreasing(rows, Created)
    ensures forall k :: 0 <= k < |rows| ==>
      Attached(OutDtos(rows), itemDtos)[k] == ToItemRequestOutDto(rows[k]).(items := Attached(OutDtos(rows), itemDtos)[k].items)
    ensures forall i, j :: 0 <= i < j < |rows| ==>
      Attached(OutDtos(rows), itemDtos)[i].created >= Attached(OutDtos(rows), itemDtos)[j].created
  {
    var dtos := OutDtos(rows);
    var r := Attached(dtos, itemDtos);
    forall k | 0 <= k < |r|
      ensures r[k] == ToItemRequestOutDto(rows[k]).(items := r[k].items)
    {
      AttachChangesOnlyItems(dtos, itemDtos, k);
    }
    forall i, j | 0 <= i < j < |r| ensures r[i].created >= r[j].created {
      AttachChangesOnlyItems(dtos, itemDtos, i);
      AttachChangesOnlyItems(dtos, itemDtos, j);
      assert Created(rows[i]) >= Created(rows[j]);
    }
  }

  /** Each listed request of another user carries exactly the items that
      answer it. */
  lemma AllRequestsListTheirItems(db: Database, userId: int, page: PageRequest, k: nat)
    requires db.Valid() && k < |OthersRequestsPage(db, userId, page)|
    ensures var q := OthersRequestsPage(db, userId, page)[k];
      var a := AllRequests(db, userId, page)[k];
      && q in db.requests && q.requester.Some? && q.requester.value.id != userId
      && (forall it :: it in db.ItemEntities() && it.request == q.id ==> a.items.Some? && ToItemOutDto(it) in a.items.value)
      && (a.items.Some? ==> forall d :: d in a.items.value ==>
            exists it :: it in db.ItemEntities() && it.request == q.id && d == ToItemOutDto(it))
  {
    var others := FindByRequesterIdNot(db.requests, userId);
    var rows := OthersRequestsPage(db, userId, page);
    var dtos := OutDtos(rows);
    assert rows[k] in rows;
    SelectKeepsIncreasing(db.requests, (q: ItemRequest) => q.requester.Some? && q.requester.value.id != userId, RequestKey);
    SortDescDistinct(others, Created, RequestKey);
    forall i | 0 <= i < |rows| ensures rows[i].id.Some? {
      assert rows[i] in rows;
    }
    forall i, j | 0 <= i < j < |dtos| ensures dtos[i].id != dtos[j].id {
      assert RequestKey(rows[i]) != RequestKey(rows[j]);
    }
    DistinctIdsAreLast(dtos, k);
    AttachedItemsAre(db.ItemEntities(), dtos, k);
  }

  /** `getAllRequests`: the caller must exist, then the page must be valid;
      the answer is a page of other users' requests, newest first, with the
      items offered for them. */
  method GetAllRequests(db: Database, userId: int, from: int, size: int)
    returns (r: Result<seq<ItemRequestOutDto>, Error>)
    ensures userId !in db.users ==> r == Err(BookingService.UserNotFound(userId))
    ensures userId in db.users && PageRequestOf(from, size).Err? ==> r == Err(PageRequestOf(from, size).error)
    ensures r.Ok? <==> userId in db.users && PageRequestOf(from, size).Ok?
    ensures r.Ok? ==> r.value == AllRequests(db, userId, PageRequestOf(from, size).value)
  {
    var user := BookingService.CheckUser(db, userId);
    if user.Err? {
      return Err(user.error);
    }
    var page := PageRequestOf(from, size);
    if page.Err? {
      return Err(page.error);
    }
    var listed := ListWithItems(db, OthersRequestsPage(db, userId, page.value));
    return Ok(listed);
  }

  /** The shared tail of the two listings: the requests mapped to output
      DTOs in a fresh list, then `addItemsToRequests` on that list. */
  method ListWithItems(db: Database, rows: seq<ItemRequest>) returns (listed: seq<ItemRequestOutDto>)
    ensures listed == Attached(OutDtos(rows), ItemsOffered(db.ItemEntities(), OutDtos(rows)))
  {
    var dtos := new ItemRequestOutDto[|rows|](k requires 0 <= k < |rows| => ToItemRequestOutDto(rows[k]));
    assert dtos[..] == OutDtos(rows);
    AddItemsToRequests(db, dtos);
    listed := dtos[..];
  }

  /** `getOneRequest`: the request is looked up before the caller; the
      answer carries every item that answers the request. */
  function GetOneRequest(db: Database, requestId: int, userId: int): (r: Result<ItemRequestOutDto, Error>)
    reads db
    ensures CheckRequest(db, requestId).Err? ==> r == Err(RequestNotFound(requestId))
    ensures CheckRequest(db, requestId).Ok? && userId !in db.users ==> r == Err(BookingService.UserNotFound(userId))
    ensures r.Ok? <==> CheckRequest(db, requestId).Ok? && userId in db.users
    ensures r.Ok? ==> exists q :: q in db.requests && RequestKey(q) == requestId
                                  && r.value == ToItemRequestOutDto(q).(items := r.value.items)
    ensures r.Ok? ==> r.value.items.Some?
    ensures r.Ok? ==> forall d :: d in r.value.items.value <==>
      exists it :: it in db.ItemEntities() && it.request == Some(requestId) && d == ToItemOutDto(it)
  {
    match CheckRequest(db, requestId)
    case Err(e) => Err(e)
    case Ok(request) =>
      match BookingService.CheckUser(db, userId)
      case Err(e) => Err(e)
      case Ok(_) =>
        var found := FindAllByRequestId(db.ItemEntities(), requestId);
        var items := ItemOutDtos(found);
        assert forall d :: d in items <==> exists it :: it in found && d == ToItemOutDto(it) by {
          forall d ensures d in items <==> exists it :: it in found && d == ToItemOutDto(it) {
            InItemOutDtos(found, d);
          }
        }
        Ok(ToItemRequestOutDto(request).(items := Some(items)))
  }

  /** `createRequest`: the caller must exist; the request is saved with the
      caller as requester, the current instant as creation time and the
      next identity value, and can then be looked up by that id. */
  method CreateRequest(db: Database, userId: int, dto: ItemRequestInDto, now: int)
    returns (r: Result<ItemRequestOutCreatedDto, Error>)
    requires db.Valid()
    modifies db`requests, db`nextRequestId
    ensures db.Valid()
    ensures userId !in db.users ==>
      r == Err(BookingService.UserNotFound(userId))
      && db.requests == old(db.requests) && db.nextRequestId == old(db.nextRequestId)
    ensures userId in db.users ==>
      var saved := ToItemRequest(dto, db.users[userId], now).(id := Some(old(db.nextRequestId)));
      && db.requests == old(db.requests) + [saved]
      && db.nextRequestId == old(db.nextRequestId) + 1
      && r == Ok(ToItemRequestOutCreatedDto(saved))
      && CheckRequest(db, old(db.nextRequestId)) == Ok(saved)
      && saved in FindAllByRequesterId(db.requests, userId)
  {
    var user := BookingService.CheckUser(db, userId);
    if user.Err? {
      return Err(user.error);
    }
    var request := ToItemRequest(dto, user.value, now);
    request := request.(id := Some(db.nextRequestId));
    AppendIncreasing(db.requests, request, RequestKey, db.nextRequestId);
    db.requests := db.requests + [request];
    db.nextRequestId := db.nextRequestId + 1;
    IndexOfUnique(db.requests, RequestKey(request), RequestKey, |db.requests| - 1);
    r := Ok(ToItemRequestOutCreatedDto(request));
  }
}
