/** `ItemRequestMapper`: conversions between an item request and its DTOs. */
module RequestMapper {
  import opened Wrappers
  import opened Domain
  import opened ItemMapper

  /** `ItemRequestInDto`: what a client sends to open a request. */
  datatype ItemRequestInDto = ItemRequestInDto(description: string)

  /** `ItemRequestOutDto`: a request as it is listed, with the items offered
      for it once they are attached. */
  datatype ItemRequestOutDto = ItemRequestOutDto(id: Option<int>, description: string, created: int,
                                                 requester: Option<User>, items: Option<seq<ItemDto>>)

  /** `ItemRequestOutCreatedDto`: the answer to a new request. */
  datatype ItemRequestOutCreatedDto = ItemRequestOutCreatedDto(id: Option<int>, description: string, created: int)

  /** `toItemRequest(in, requester, created)`: a new, unsaved request. */
  function ToItemRequest(dto: ItemRequestInDto, requester: User, created: int): (r: ItemRequest)
    ensures r.id.None?
    ensures r.description == dto.description && r.requester == Some(requester) && r.created == created
  {
    ItemRequest(None, dto.description, Some(requester), created)
  }

  /** `toItemRequest(outDto)`: description, requester and creation time; no id. */
  function FromOutDto(dto: ItemRequestOutDto): (r: ItemRequest)
    ensures r.id.None?
    ensures r.description == dto.description && r.requester == dto.requester && r.created == dto.created
  {
    ItemRequest(None, dto.description, dto.requester, dto.created)
  }

  /** `toItemRequestOutDto`: id, description and creation time; the
      requester is not copied and no items are attached yet. */
  function ToItemRequestOutDto(request: ItemRequest): (r: ItemRequestOutDto)
    ensures r.id == request.id && r.description == request.description && r.created == request.created
    ensures r.requester.None? && r.items.None?
  {
    ItemRequestOutDto(request.id, request.description, request.created, None, None)
  }

  /** `toItemRequestOutCreatedDto`: id, description and creation time. */
  function ToItemRequestOutCreatedDto(request: ItemRequest): (r: ItemRequestOutCreatedDto)
    ensures r.id == request.id && r.description == request.description && r.created == request.created
  {
    ItemRequestOutCreatedDto(request.id, request.description, request.created)
  }

  /** Out and back loses the id and the requester and nothing else. */
  lemma RequestRoundTrip(request: ItemRequest)
    ensures FromOutDto(ToItemRequestOutDto(request)) == request.(id := None, requester := None)
  {
  }

  /** Back and out again keeps description and creation time; id,
      requester and items are lost. */
  lemma OutDtoRoundTrip(dto: ItemRequestOutDto)
    ensures ToItemRequestOutDto(FromOutDto(dto)) == dto.(id := None, requester := None, items := None)
  {
  }

  /** A request built from a client's DTO answers with the same description
      and the given creation time. */
  lemma CreatedAnswerKeepsInput(dto: ItemRequestInDto, requester: User, created: int, id: int)
    ensures var saved := ToItemRequest(dto, requester, created).(id := Some(id));
      ToItemRequestOutCreatedDto(saved) == ItemRequestOutCreatedDto(Some(id), dto.description, created)
  {
  }
}
