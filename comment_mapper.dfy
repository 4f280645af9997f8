/** `CommentMapper`: between the comment record and `CommentDto`. */
module CommentMapper {
  import opened Wrappers
  import opened Domain
  import opened ItemMapper

  /** `toCommentDto`: id, text and creation time, the item, and the author's name. */
  function ToCommentDto(c: Comment): (r: CommentDto)
    ensures r.id == c.id && r.text == Some(c.text) && r.created == Some(c.created)
    ensures r.item == Some(c.item) && r.authorName == Some(c.user.name)
  {
    CommentDto(c.id, Some(c.text), Some(c.item), Some(c.user.name), Some(c.created))
  }

  /** `toComment`: id and text from the DTO; item, author and creation time
      from the arguments. The record holds a text, so the DTO must carry one. */
  function ToComment(dto: CommentDto, user: User, item: Item, created: int): (r: Comment)
    requires dto.text.Some?
    ensures r.id == dto.id && r.text == dto.text.value
    ensures r.item == item && r.user == user && r.created == created
  {
    Comment(dto.id, dto.text.value, item, user, created)
  }

  /** DTO → comment → DTO: the DTO's id and text, the given creation time
      and item, and the author's name. */
  lemma CommentDtoRoundTrip(dto: CommentDto, user: User, item: Item, created: int)
    requires dto.text.Some?
    ensures ToCommentDto(ToComment(dto, user, item, created)) ==
      dto.(item := Some(item), authorName := Some(user.name), created := Some(created))
  {
  }

  /** Comment → DTO → comment with the comment's own item and author gives it back. */
  lemma CommentRoundTrip(c: Comment)
    ensures ToComment(ToCommentDto(c), c.user, c.item, c.created) == c
  {
  }
}
