/** `ItemRepository`: the item queries, as selections over the items table
    in insertion order. */
module ItemRepository {
  import opened Wrappers
  import opened Domain
  import opened Text
  import opened Sequences
  import opened Paging

  /** The `search` predicate: the item is available and the lower-cased
      text occurs in its lower-cased description or name. */
  predicate SearchMatches(item: Item, text: string)
  {
    item.available && (Contains(Lower(item.description), Lower(text)) || Contains(Lower(item.name), Lower(text)))
  }

  /** `search`: the available items whose name or description contains the
      text, ignoring case. */
  function Search(items: seq<Item>, text: string): (r: seq<Item>)
    ensures forall i :: i in r <==> i in items && SearchMatches(i, text)
    ensures forall k :: 0 <= k < |r| ==> r[k].available
  {
    Select(items, (i: Item) => SearchMatches(i, text))
  }

  /** `search` with a `Pageable`: page `p` of the search result. */
  function SearchPage(items: seq<Item>, text: string, p: PageRequest): (r: seq<Item>)
    ensures IsPage(r, Search(items, text), p)
    ensures |r| <= p.size
    ensures forall i :: i in r ==> i in Search(items, text)
  {
    PageWithinRows(Search(items, text), p);
    PageOf(Search(items, text), p)
  }

  /** Searching for a text or for its lower-cased form finds the same items. */
  lemma SearchIgnoresCase(items: seq<Item>, text: string)
    ensures Search(items, Lower(text)) == Search(items, text)
  {
    LowerIdempotent(text);
    SelectExt(items, (i: Item) => SearchMatches(i, Lower(text)), (i: Item) => SearchMatches(i, text));
  }

  /** An item whose name holds the text, in any case, is found if it is available. */
  lemma SearchFindsByName(items: seq<Item>, text: string, item: Item, at: nat)
    requires item in items && item.available
    requires at + |text| <= |item.name| && Lower(item.name)[at..at + |text|] == Lower(text)
    ensures item in Search(items, text)
  {
    ContainsAt(Lower(item.name), Lower(text), at);
  }

  /** `findAllByOwner_Id`: the owner's items, in insertion order. */
  function FindAllByOwnerId(items: seq<Item>, ownerId: int): (r: seq<Item>)
    ensures forall i :: i in r <==> i in items && i.owner.id == ownerId
  {
    Select(items, (i: Item) => i.owner.id == ownerId)
  }

  /** An owner with no items gets an empty result. */
  lemma UnknownOwnerHasNoItems(items: seq<Item>, ownerId: int)
    requires forall i :: i in items ==> i.owner.id != ownerId
    ensures FindAllByOwnerId(items, ownerId) == []
  {
    SelectNone(items, (i: Item) => i.owner.id == ownerId);
  }

  /** `findAllByRequest_Id`: the items answering the request. */
  function FindAllByRequestId(items: seq<Item>, requestId: int): (r: seq<Item>)
    ensures forall i :: i in r <==> i in items && i.request == Some(requestId)
  {
    Select(items, (i: Item) => i.request == Some(requestId))
  }

  /** `findByRequestIdIn`: the items answering any of the requests. */
  function FindByRequestIdIn(items: seq<Item>, requestIds: seq<int>): (r: seq<Item>)
    ensures forall i :: i in r <==> i in items && i.request.Some? && i.request.value in requestIds
  {
    Select(items, (i: Item) => i.request.Some? && i.request.value in requestIds)
  }

  /** Asking for one request id either way gives the same list. */
  lemma RequestIdInSingleton(items: seq<Item>, requestId: int)
    ensures FindByRequestIdIn(items, [requestId]) == FindAllByRequestId(items, requestId)
  {
    SelectExt(items, (i: Item) => i.request.Some? && i.request.value in [requestId],
                     (i: Item) => i.request == Some(requestId));
  }
}
