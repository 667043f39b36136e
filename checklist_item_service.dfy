/**
 * `ChecklistItemService`: validating and creating checklist items, updating
 * them field by field, setting their completion flag, looking them up and
 * deleting them. Each operation is first stated as a function of the tables
 * it reads, giving the outcome and the new item table; the service class then
 * performs the same steps against its repositories.
 */
module ChecklistItems {
  import opened Entity
  import opened Repository

  /** The rules `validateChecklistItemData` enforces, one exception each. */
  datatype ItemRule = BlankDescription | BlankCategoryGuid | NullIsCompleted | NullDateEnd

  /** The order in which the rules are checked. */
  function Rank(rule: ItemRule): nat
  {
    match rule
    case BlankDescription => 0
    case BlankCategoryGuid => 1
    case NullIsCompleted => 2
    case NullDateEnd => 3
  }

  /** Whether the arguments break `rule`. */
  predicate Broken(rule: ItemRule, description: Option<string>, isCompleted: Option<bool>,
                   dateEnd: Option<Date>, categoryGuid: Option<string>)
  {
    match rule
    case BlankDescription => !HasText(description)
    case BlankCategoryGuid => !HasText(categoryGuid)
    case NullIsCompleted => isCompleted.None?
    case NullDateEnd => dateEnd.None?
  }

  /**
   * `validateChecklistItemData`: the first rule, in checking order, that the
   * arguments break, or None when they break none.
   */
  function ValidateChecklistItemData(description: Option<string>, isCompleted: Option<bool>,
                                     dateEnd: Option<Date>, categoryGuid: Option<string>): (r: Option<ItemRule>)
    ensures r.Some? ==> Broken(r.value, description, isCompleted, dateEnd, categoryGuid)
    ensures r.None? ==> forall k :: !Broken(k, description, isCompleted, dateEnd, categoryGuid)
    ensures r.Some? ==> forall k :: Rank(k) < Rank(r.value) ==> !Broken(k, description, isCompleted, dateEnd, categoryGuid)
  {
    if !HasText(description) then Some(BlankDescription)
    else if !HasText(categoryGuid) then Some(BlankCategoryGuid)
    else if isCompleted.None? then Some(NullIsCompleted)
    else if dateEnd.None? then Some(NullDateEnd)
    else None
  }

  /**
   * `addNewChecklistItem`: arguments that fail validation are refused before
   * any table is read; a category guid that matches no category is not found;
   * otherwise one item is added under the fresh guid, posted `today`, with the
   * given fields and the category found.
   */
  function CreateItem(categories: CategoryTable, items: ItemTable, description: Option<string>,
                      isCompleted: Option<bool>, dateEnd: Option<Date>, categoryGuid: Option<string>,
                      newGuid: string, today: Date): (r: (Outcome<ChecklistItemEntity>, ItemTable))
    requires newGuid !in items
    ensures r.0.ValidationError? <==> ValidateChecklistItemData(description, isCompleted, dateEnd, categoryGuid).Some?
    ensures r.0.NotFound? <==>
      ValidateChecklistItemData(description, isCompleted, dateEnd, categoryGuid).None? && categoryGuid.value !in categories
    ensures !r.0.Conflict?
    ensures !r.0.Ok? ==> r.1 == items
    ensures r.0.Ok? ==>
      && r.1.Keys == items.Keys + {newGuid}
      && (forall g :: g in items ==> r.1[g] == items[g])
      && r.1[newGuid].categoryGuid == categoryGuid
      && r.0.value == Load(r.1[newGuid], categories)
    ensures r.0.Ok? ==>
      && r.0.value.guid == Some(newGuid)
      && r.0.value.description == description
      && r.0.value.isCompleted == isCompleted
      && r.0.value.dateEnd == dateEnd
      && r.0.value.datePost == Some(today)
      && r.0.value.category == Some(categories[categoryGuid.value])
  {
    if ValidateChecklistItemData(description, isCompleted, dateEnd, categoryGuid).Some? then (ValidationError, items)
    else match Lookup(categories, categoryGuid)
      case None => (NotFound, items)
      case Some(_) =>
        var created := ChecklistItemRow(newGuid, description, isCompleted, dateEnd, Some(today), categoryGuid);
        (Ok(Load(created, categories)), items[newGuid := created])
  }

  /** The guard `updateChecklistItem`, `findChecklistItemByGuid`, `deleteChecklistItem` and `updateIsCompleteStatus` share. */
  function FindTarget(items: ItemTable, guid: Option<string>): (r: Outcome<ChecklistItemRow>)
    ensures r.ValidationError? <==> !HasText(guid)
    ensures r.NotFound? <==> HasText(guid) && guid.value !in items
    ensures !r.Conflict?
    ensures r.Ok? ==> guid.Some? && guid.value in items && r.value == items[guid.value]
  {
    if !HasText(guid) then ValidationError
    else match Lookup(items, guid)
      case None => NotFound
      case Some(item) => Ok(item)
  }

  /**
   * `updateChecklistItem`, as written: the description is replaced only when
   * the argument has NO text; the completion flag and due date only when
   * given; and the category is looked up (and replaced) only when the
   * category guid has NO text, an unmatched lookup being NotFound.
   */
  function EditItem(categories: CategoryTable, items: ItemTable, guid: Option<string>, description: Option<string>,
                    isCompleted: Option<bool>, dateEnd: Option<Date>, categoryGuid: Option<string>)
    : (r: (Outcome<ChecklistItemEntity>, ItemTable))
    ensures r.0.ValidationError? <==> !HasText(guid)
    ensures r.0.NotFound? <==>
      HasText(guid) && (guid.value !in items || (!HasText(categoryGuid) && Lookup(categories, categoryGuid).None?))
    ensures !r.0.Conflict?
    ensures !r.0.Ok? ==> r.1 == items
    ensures r.0.Ok? ==>
      && guid.Some? && guid.value in items
      && r.1.Keys == items.Keys
      && (forall g :: g in items && g != guid.value ==> r.1[g] == items[g])
      && r.0.value == Load(r.1[guid.value], categories)
    ensures r.0.Ok? ==>
      var before, after := items[guid.value], r.1[guid.value];
      && after.guid == before.guid
      && after.description == (if HasText(description) then before.description else description)
      && after.isCompleted == (if isCompleted.Some? then isCompleted else before.isCompleted)
      && after.dateEnd == (if dateEnd.Some? then dateEnd else before.dateEnd)
      && after.datePost == before.datePost
      && after.categoryGuid == (if HasText(categoryGuid) then before.categoryGuid else categoryGuid)
  {
    match FindTarget(items, guid)
    case Ok(retrieved) =>
      var item := retrieved;
      var item := if !HasText(description) then item.(description := description) else item;
      var item := if isCompleted.Some? then item.(isCompleted := isCompleted) else item;
      var item := if dateEnd.Some? then item.(dateEnd := dateEnd) else item;
      if !HasText(categoryGuid) then
        match Lookup(categories, categoryGuid)
        case None => (NotFound, items)
        case Some(_) =>
          var item := item.(categoryGuid := categoryGuid);
          (Ok(Load(item, categories)), items[guid.value := item])
      else
        (Ok(Load(item, categories)), items[guid.value := item])
    case ValidationError => (ValidationError, items)
    case NotFound => (NotFound, items)
  }

  /** `updateIsCompleteStatus`: after the shared guard, sets the flag to the argument, null included, and nothing else. */
  function SetCompletion(items: ItemTable, guid: Option<string>, isComplete: Option<bool>): (r: (Outcome<()>, ItemTable))
    ensures r.0.ValidationError? <==> !HasText(guid)
    ensures r.0.NotFound? <==> HasText(guid) && guid.value !in items
    ensures !r.0.Conflict?
    ensures !r.0.Ok? ==> r.1 == items
    ensures r.0.Ok? ==>
      && guid.Some? && guid.value in items
      && r.1.Keys == items.Keys
      && (forall g :: g in items && g != guid.value ==> r.1[g] == items[g])
      && r.1[guid.value] == items[guid.value].(isCompleted := isComplete)
  {
    match FindTarget(items, guid)
    case Ok(retrieved) => (Ok(()), items[guid.value := retrieved.(isCompleted := isComplete)])
    case ValidationError => (ValidationError, items)
    case NotFound => (NotFound, items)
  }

  /** `deleteChecklistItem`: after the shared guard, removes exactly that item. */
  function RemoveItem(items: ItemTable, guid: Option<string>): (r: (Outcome<()>, ItemTable))
    ensures r.0.ValidationError? <==> !HasText(guid)
    ensures r.0.NotFound? <==> HasText(guid) && guid.value !in items
    ensures !r.0.Conflict?
    ensures !r.0.Ok? ==> r.1 == items
    ensures r.0.Ok? ==>
      && guid.Some? && guid.value in items
      && r.1.Keys == items.Keys - {guid.value}
      && forall g :: g in r.1 ==> r.1[g] == items[g]
  {
    match FindTarget(items, guid)
    case Ok(_) => (Ok(()), items - {guid.value})
    case ValidationError => (ValidationError, items)
    case NotFound => (NotFound, items)
  }

  /** `findChecklistItemByGuid`: after the shared guard, the item found, with its category loaded. */
  function LookupItem(categories: CategoryTable, items: ItemTable, guid: Option<string>): (r: Outcome<ChecklistItemEntity>)
    ensures r.ValidationError? <==> !HasText(guid)
    ensures r.NotFound? <==> HasText(guid) && guid.value !in items
    ensures !r.Conflict?
    ensures r.Ok? ==> guid.Some? && guid.value in items && r.value == Load(items[guid.value], categories)
  {
    match FindTarget(items, guid)
    case Ok(item) => Ok(Load(item, categories))
    case ValidationError => ValidationError
    case NotFound => NotFound
  }

  /** The four guid-addressed operations fail alike: the shared guard's failure is theirs, and nothing is written. */
  lemma SharedGuard(categories: CategoryTable, items: ItemTable, guid: Option<string>, description: Option<string>,
                    isCompleted: Option<bool>, dateEnd: Option<Date>, categoryGuid: Option<string>)
    requires !FindTarget(items, guid).Ok?
    ensures EditItem(categories, items, guid, description, isCompleted, dateEnd, categoryGuid)
            == (FindTarget(items, guid).PropagateError(), items)
    ensures SetCompletion(items, guid, isCompleted) == (FindTarget(items, guid).PropagateError(), items)
    ensures RemoveItem(items, guid) == (FindTarget(items, guid).PropagateError(), items)
    ensures LookupItem(categories, items, guid) == FindTarget(items, guid).PropagateError()
  {
  }

  /** Validation reports the description rule first, whatever else is wrong. */
  lemma BlankDescriptionReportedFirst(isCompleted: Option<bool>, dateEnd: Option<Date>, categoryGuid: Option<string>)
    ensures ValidateChecklistItemData(Some(""), isCompleted, dateEnd, categoryGuid) == Some(BlankDescription)
  {
  }

  /** An item just created is found under its guid with the fields it was created with. */
  lemma CreateThenFind(categories: CategoryTable, items: ItemTable, description: Option<string>,
                       isCompleted: Option<bool>, dateEnd: Option<Date>, categoryGuid: Option<string>,
                       newGuid: string, today: Date)
    requires newGuid !in items && HasText(Some(newGuid))
    requires CreateItem(categories, items, description, isCompleted, dateEnd, categoryGuid, newGuid, today).0.Ok?
    ensures var (created, after) := CreateItem(categories, items, description, isCompleted, dateEnd, categoryGuid, newGuid, today);
            LookupItem(categories, after, Some(newGuid)) == created
  {
  }

  /**
   * The inverted description guard: a description with text is ignored by a
   * successful update, and a blank or null one overwrites the stored one.
   */
  lemma EditDescriptionIsInverted(categories: CategoryTable, items: ItemTable, guid: Option<string>,
                                  description: Option<string>, isCompleted: Option<bool>,
                                  dateEnd: Option<Date>, categoryGuid: Option<string>)
    requires EditItem(categories, items, guid, description, isCompleted, dateEnd, categoryGuid).0.Ok?
    ensures var after := EditItem(categories, items, guid, description, isCompleted, dateEnd, categoryGuid).1;
            && (HasText(description) ==> after[guid.value].description == items[guid.value].description)
            && (!HasText(description) ==> after[guid.value].description == description)
  {
  }

  /**
   * The inverted category guard: on consistent tables an update whose
   * category guid is blank or null always ends NotFound (no category has such
   * a guid), so an update that succeeds never changes the item's category.
   */
  lemma EditNeverMovesCategory(categories: CategoryTable, items: ItemTable, guid: Option<string>,
                               description: Option<string>, isCompleted: Option<bool>,
                               dateEnd: Option<Date>, categoryGuid: Option<string>)
    requires Consistent(categories, items)
    ensures HasText(guid) && guid.value in items && !HasText(categoryGuid) ==>
            EditItem(categories, items, guid, description, isCompleted, dateEnd, categoryGuid).0 == NotFound
    ensures var (r, after) := EditItem(categories, items, guid, description, isCompleted, dateEnd, categoryGuid);
            r.Ok? ==> HasText(categoryGuid) && after[guid.value].categoryGuid == items[guid.value].categoryGuid
  {
  }

  class ChecklistItemService {
    const checklistItemRepository: ChecklistItemRepository
    const categoryRepository: CategoryRepository

    constructor (checklistItemRepository: ChecklistItemRepository, categoryRepository: CategoryRepository)
      ensures this.checklistItemRepository == checklistItemRepository
      ensures this.categoryRepository == categoryRepository
    {
      this.checklistItemRepository := checklistItemRepository;
      this.categoryRepository := categoryRepository;
    }

    method UpdateChecklistItem(guid: Option<string>, description: Option<string>, isCompleted: Option<bool>,
                               dateEnd: Option<Date>, categoryGuid: Option<string>)
      returns (r: Outcome<ChecklistItemEntity>)
      requires checklistItemRepository.Valid()
      modifies checklistItemRepository
      ensures checklistItemRepository.Valid()
      ensures r == EditItem(categoryRepository.rows, old(checklistItemRepository.rows),
                            guid, description, isCompleted, dateEnd, categoryGuid).0
      ensures checklistItemRepository.rows == EditItem(categoryRepository.rows, old(checklistItemRepository.rows),
                                                      guid, description, isCompleted, dateEnd, categoryGuid).1
    {
      if !HasText(guid) {
        return ValidationError;
      }
      var found := checklistItemRepository.FindByGuid(guid);
      if found.None? {
        return NotFound;
      }
      var retrievedItem := found.value;
      if !HasText(description) {
        retrievedItem := retrievedItem.(description := description);
      }
      if isCompleted.Some? {
        retrievedItem := retrievedItem.(isCompleted := isCompleted);
      }
      if dateEnd.Some? {
        retrievedItem := retrievedItem.(dateEnd := dateEnd);
      }
      if !HasText(categoryGuid) {
        var retrievedCategory := categoryRepository.FindByGuid(categoryGuid);
        if retrievedCategory.None? {
          return NotFound;
        }
        retrievedItem := retrievedItem.(categoryGuid := categoryGuid);
      }
      var saved := checklistItemRepository.Save(retrievedItem);
      r := Ok(Load(saved, categoryRepository.rows));
    }

    /** `newGuid` stands for `UUID.randomUUID()` and `today` for `LocalDate.now()`. */
    method AddNewChecklistItem(description: Option<string>, isCompleted: Option<bool>, dateEnd: Option<Date>,
                               categoryGuid: Option<string>, newGuid: string, today: Date)
      returns (r: Outcome<ChecklistItemEntity>)
      requires checklistItemRepository.Valid() && newGuid !in checklistItemRepository.rows
      modifies checklistItemRepository
      ensures checklistItemRepository.Valid()
      ensures r == CreateItem(categoryRepository.rows, old(checklistItemRepository.rows),
                              description, isCompleted, dateEnd, categoryGuid, newGuid, today).0
      ensures checklistItemRepository.rows == CreateItem(categoryRepository.rows, old(checklistItemRepository.rows),
                                                        description, isCompleted, dateEnd, categoryGuid, newGuid, today).1
    {
      if ValidateChecklistItemData(description, isCompleted, dateEnd, categoryGuid).Some? {
        return ValidationError;
      }
      var retrievedCategory := categoryRepository.FindByGuid(categoryGuid);
      if retrievedCategory.None? {
        return NotFound;
      }
      var checklistItem := ChecklistItemRow(newGuid, description, isCompleted, dateEnd, Some(today), categoryGuid);
      var saved := checklistItemRepository.Save(checklistItem);
      r := Ok(Load(saved, categoryRepository.rows));
    }

    method FindChecklistItemByGuid(guid: Option<string>) returns (r: Outcome<ChecklistItemEntity>)
      ensures r == LookupItem(categoryRepository.rows, checklistItemRepository.rows, guid)
    {
      if !HasText(guid) {
        return ValidationError;
      }
      var found := checklistItemRepository.FindByGuid(guid);
      if found.None? {
        return NotFound;
      }
      r := Ok(Load(found.value, categoryRepository.rows));
    }

    /** Every item, each with its category loaded, in the store's order. */
    method FindAllChecklistItems() returns (r: seq<ChecklistItemEntity>, ghost keys: seq<string>)
      ensures Enumerates(map g | g in checklistItemRepository.rows :: Load(checklistItemRepository.rows[g], categoryRepository.rows), r, keys)
      ensures |r| == |checklistItemRepository.rows|
      ensures forall g :: g in checklistItemRepository.rows ==>
                Load(checklistItemRepository.rows[g], categoryRepository.rows) in r
      ensures forall e :: e in r ==>
                exists g :: g in checklistItemRepository.rows && e == Load(checklistItemRepository.rows[g], categoryRepository.rows)
    {
      var rows;
      rows, keys := checklistItemRepository.FindAll();
      var categories := categoryRepository.rows;
      r := seq(|rows|, i requires 0 <= i < |rows| => Load(rows[i], categories));
      forall g | g in checklistItemRepository.rows
        ensures Load(checklistItemRepository.rows[g], categories) in r
      {
        var row := checklistItemRepository.rows[g];
        assert row in rows;
        var i :| 0 <= i < |rows| && rows[i] == row;
        assert r[i] == Load(row, categories);
      }
      forall e | e in r
        ensures exists g :: g in checklistItemRepository.rows && e == Load(checklistItemRepository.rows[g], categories)
      {
        var i :| 0 <= i < |r| && r[i] == e;
        assert rows[i] in checklistItemRepository.rows.Values;
      }
    }

    method DeleteChecklistItem(guid: Option<string>) returns (r: Outcome<()>)
      requires checklistItemRepository.Valid()
      modifies checklistItemRepository
      ensures checklistItemRepository.Valid()
      ensures r == RemoveItem(old(checklistItemRepository.rows), guid).0
      ensures checklistItemRepository.rows == RemoveItem(old(checklistItemRepository.rows), guid).1
    {
      if !HasText(guid) {
        return ValidationError;
      }
      var found := checklistItemRepository.FindByGuid(guid);
      if found.None? {
        return NotFound;
      }
      checklistItemRepository.Delete(found.value);
      r := Ok(());
    }

    method UpdateIsCompleteStatus(guid: Option<string>, isComplete: Option<bool>) returns (r: Outcome<()>)
      requires checklistItemRepository.Valid()
      modifies checklistItemRepository
      ensures checklistItemRepository.Valid()
      ensures r == SetCompletion(old(checklistItemRepository.rows), guid, isComplete).0
      ensures checklistItemRepository.rows == SetCompletion(old(checklistItemRepository.rows), guid, isComplete).1
    {
      if !HasText(guid) {
        return ValidationError;
      }
      var found := checklistItemRepository.FindByGuid(guid);
      if found.None? {
        return NotFound;
      }
      var retrievedItem := found.value.(isCompleted := isComplete);
      var _ := checklistItemRepository.Save(retrievedItem);
      r := Ok(());
    }
  }
}
