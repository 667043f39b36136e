/**
 * `CategoryService`: creating, renaming, looking up and deleting categories.
 * Each operation is first stated as a function of the tables it reads,
 * giving the outcome and the new category table; the service class then
 * performs the same guard chain against its repositories.
 */
module Categories {
  import opened Entity
  import opened Repository

  /** `addNewCategory`: a name without text is refused; otherwise a category under the fresh guid is added. */
  function AddCategory(categories: CategoryTable, name: Option<string>, newGuid: string)
    : (r: (Outcome<CategoryEntity>, CategoryTable))
    requires newGuid !in categories
    ensures r.0.Ok? <==> HasText(name)
    ensures !r.0.Ok? ==> r.0.ValidationError? && r.1 == categories
    ensures r.0.Ok? ==> r.0.value.guid == Some(newGuid) && r.0.value.name == name
    ensures r.0.Ok? ==> r.1.Keys == categories.Keys + {newGuid} && r.1[newGuid] == r.0.value
    ensures r.0.Ok? ==> forall g :: g in categories ==> r.1[g] == categories[g]
  {
    if !HasText(name) then (ValidationError, categories)
    else
      var created := CategoryEntity(Some(newGuid), name);
      (Ok(created), categories[newGuid := created])
  }

  /**
   * `updateCategory`: a null guid or a name without text is refused (a blank
   * but non-null guid is not); an unknown guid is not found; otherwise only
   * the name of that category changes.
   */
  function RenameCategory(categories: CategoryTable, guid: Option<string>, name: Option<string>)
    : (r: (Outcome<CategoryEntity>, CategoryTable))
    ensures r.0.ValidationError? <==> guid.None? || !HasText(name)
    ensures r.0.NotFound? <==> guid.Some? && HasText(name) && guid.value !in categories
    ensures !r.0.Conflict?
    ensures !r.0.Ok? ==> r.1 == categories
    ensures r.0.Ok? ==>
      && r.1.Keys == categories.Keys
      && r.1[guid.value] == r.0.value
      && r.0.value.guid == categories[guid.value].guid
      && r.0.value.name == name
      && forall g :: g in categories && g != guid.value ==> r.1[g] == categories[g]
  {
    if guid.None? || !HasText(name) then (ValidationError, categories)
    else if guid.value !in categories then (NotFound, categories)
    else
      var renamed := categories[guid.value].(name := name);
      (Ok(renamed), categories[guid.value := renamed])
  }

  /**
   * `deleteCategory`: a blank guid is refused, an unknown guid is not found,
   * a category some item still refers to is a conflict; otherwise exactly
   * that category is removed.
   */
  function RemoveCategory(categories: CategoryTable, items: ItemTable, guid: Option<string>)
    : (r: (Outcome<()>, CategoryTable))
    ensures r.0.ValidationError? <==> !HasText(guid)
    ensures r.0.NotFound? <==> HasText(guid) && guid.value !in categories
    ensures r.0.Conflict? <==> HasText(guid) && guid.value in categories && Referenced(items, guid.value)
    ensures !r.0.Ok? ==> r.1 == categories
    ensures r.0.Ok? ==>
      && r.1.Keys == categories.Keys - {guid.value}
      && forall g :: g in r.1 ==> r.1[g] == categories[g]
  {
    if !HasText(guid) then (ValidationError, categories)
    else if guid.value !in categories then (NotFound, categories)
    else if Referenced(items, guid.value) then (Conflict, categories)
    else (Ok(()), categories - {guid.value})
  }

  /** `findCategoryByGuid`: a blank guid is refused, an unknown one is not found, a known one gives its category. */
  function LookupCategory(categories: CategoryTable, guid: Option<string>): (r: Outcome<CategoryEntity>)
    ensures r.ValidationError? <==> !HasText(guid)
    ensures r.NotFound? <==> HasText(guid) && guid.value !in categories
    ensures !r.Conflict?
    ensures r.Ok? ==> guid.Some? && guid.value in categories && r.value == categories[guid.value]
  {
    if !HasText(guid) then ValidationError
    else match Lookup(categories, guid)
      case None => NotFound
      case Some(c) => Ok(c)
  }

  /** A category just added is found under its guid, with the name it was given. */
  lemma AddThenFind(categories: CategoryTable, name: Option<string>, newGuid: string)
    requires newGuid !in categories && HasText(Some(newGuid)) && HasText(name)
    ensures LookupCategory(AddCategory(categories, name, newGuid).1, Some(newGuid))
            == Ok(CategoryEntity(Some(newGuid), name))
  {
  }

  /** Adding a category grows the table by exactly one row. */
  lemma AddGrowsByOne(categories: CategoryTable, name: Option<string>, newGuid: string)
    requires newGuid !in categories && HasText(name)
    ensures |AddCategory(categories, name, newGuid).1| == |categories| + 1
  {
    var after := AddCategory(categories, name, newGuid).1;
    assert after.Keys == categories.Keys + {newGuid};
  }

  /**
   * `updateCategory` checks only that the guid is non-null: an empty guid
   * with a valid name is not a validation error. It reaches the lookup, and
   * since no stored category has a blank guid, the result is NotFound.
   */
  lemma RenameWithEmptyGuidIsNotFound(categories: CategoryTable, items: ItemTable, name: Option<string>)
    requires Consistent(categories, items) && HasText(name)
    ensures RenameCategory(categories, Some(""), name).0 == NotFound
  {
  }

  /** Renaming a category is seen through every item that refers to it, once that item is loaded again. */
  lemma RenameIsSeenByItems(categories: CategoryTable, items: ItemTable, guid: string, name: Option<string>, g: string)
    requires RenameCategory(categories, Some(guid), name).0.Ok?
    requires g in items && items[g].categoryGuid == Some(guid)
    ensures Load(items[g], RenameCategory(categories, Some(guid), name).1).category.value.name == name
  {
  }

  /** Deleting a category never touches the item table, and succeeds exactly when no item refers to it. */
  lemma RemoveSucceedsIffUnreferenced(categories: CategoryTable, items: ItemTable, guid: string)
    requires HasText(Some(guid)) && guid in categories
    ensures RemoveCategory(categories, items, Some(guid)).0.Ok? <==> forall g :: g in items ==> items[g].categoryGuid != Some(guid)
  {
  }

  class CategoryService {
    const checklistItemRepository: ChecklistItemRepository
    const categoryRepository: CategoryRepository

    constructor (checklistItemRepository: ChecklistItemRepository, categoryRepository: CategoryRepository)
      ensures this.checklistItemRepository == checklistItemRepository
      ensures this.categoryRepository == categoryRepository
    {
      this.checklistItemRepository := checklistItemRepository;
      this.categoryRepository := categoryRepository;
    }

    /** `newGuid` stands for `UUID.randomUUID()`: a guid no category has yet. */
    method AddNewCategory(name: Option<string>, newGuid: string) returns (r: Outcome<CategoryEntity>)
      requires categoryRepository.Valid() && newGuid !in categoryRepository.rows
      modifies categoryRepository
      ensures categoryRepository.Valid()
      ensures r == AddCategory(old(categoryRepository.rows), name, newGuid).0
      ensures categoryRepository.rows == AddCategory(old(categoryRepository.rows), name, newGuid).1
    {
      if !HasText(name) {
        return ValidationError;
      }
      var newCategory := CategoryEntity(Some(newGuid), name);
      var saved := categoryRepository.Save(newCategory);
      r := Ok(saved);
    }

    method UpdateCategory(guid: Option<string>, name: Option<string>) returns (r: Outcome<CategoryEntity>)
      requires categoryRepository.Valid()
      modifies categoryRepository
      ensures categoryRepository.Valid()
      ensures r == RenameCategory(old(categoryRepository.rows), guid, name).0
      ensures categoryRepository.rows == RenameCategory(old(categoryRepository.rows), guid, name).1
    {
      if guid.None? || !HasText(name) {
        return ValidationError;
      }
      var retrievedCategory := categoryRepository.FindByGuid(guid);
      if retrievedCategory.None? {
        return NotFound;
      }
      var renamed := retrievedCategory.value.(name := name);
      var saved := categoryRepository.Save(renamed);
      r := Ok(saved);
    }

    method DeleteCategory(guid: Option<string>) returns (r: Outcome<()>)
      requires categoryRepository.Valid()
      modifies categoryRepository
      ensures categoryRepository.Valid()
      ensures r == RemoveCategory(old(categoryRepository.rows), checklistItemRepository.rows, guid).0
      ensures categoryRepository.rows == RemoveCategory(old(categoryRepository.rows), checklistItemRepository.rows, guid).1
    {
      if !HasText(guid) {
        return ValidationError;
      }
      var retrievedCategory := categoryRepository.FindByGuid(guid);
      if retrievedCategory.None? {
        return NotFound;
      }
      var checklistItems := checklistItemRepository.FindByCategoryGuid(guid.value);
      if checklistItems != [] {
        return Conflict;
      }
      categoryRepository.Delete(retrievedCategory.value);
      r := Ok(());
    }

    method FindAllCategories() returns (r: seq<CategoryEntity>, ghost keys: seq<string>)
      ensures Enumerates(categoryRepository.rows, r, keys)
      ensures |r| == |categoryRepository.rows|
      ensures forall c :: c in r <==> c in categoryRepository.rows.Values
    {
      r, keys := categoryRepository.FindAll();
    }

    method FindCategoryByGuid(guid: Option<string>) returns (r: Outcome<CategoryEntity>)
      ensures r == LookupCategory(categoryRepository.rows, guid)
    {
      if !HasText(guid) {
        return ValidationError;
      }
      var found := categoryRepository.FindByGuid(guid);
      if found.None? {
        return NotFound;
      }
      r := Ok(found.value);
    }
  }
}
