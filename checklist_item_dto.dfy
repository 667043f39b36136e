/** The outward shape of a checklist item (`ChecklistItemDTO`) and its nested category (`CategoryDTO`). */
module Dto {
  import opened Entity

  datatype CategoryDTO = CategoryDTO(guid: Option<string>, name: Option<string>)

  datatype ChecklistItemDTO = ChecklistItemDTO(
    guid: Option<string>,
    description: Option<string>,
    isCompleted: Option<bool>,
    dateEnd: Option<Date>,
    datePost: Option<Date>,
    category: Option<CategoryDTO>)

  /**
   * `ChecklistItemDTO.toDTO`: copies the item's fields and nests a copy of
   * its category, or null when the item has none. It has no precondition:
   * every entity, null fields included, has a projection.
   */
  function ToDTO(e: ChecklistItemEntity): (d: ChecklistItemDTO)
    ensures d.guid == e.guid && d.description == e.description && d.isCompleted == e.isCompleted
    ensures d.dateEnd == e.dateEnd && d.datePost == e.datePost
    ensures d.category.None? <==> e.category.None?
    ensures e.category.Some? ==>
      d.category.value.guid == e.category.value.guid && d.category.value.name == e.category.value.name
  {
    ChecklistItemDTO(
      e.guid,
      e.description,
      e.isCompleted,
      e.dateEnd,
      e.datePost,
      if e.category.Some? then Some(CategoryDTO(e.category.value.guid, e.category.value.name)) else None)
  }

  /** The projection loses nothing: two entities with the same DTO are the same entity. */
  lemma ToDTOInjective(a: ChecklistItemEntity, b: ChecklistItemEntity)
    requires ToDTO(a) == ToDTO(b)
    ensures a == b
  {
  }
}
