/**
 * What the two services together keep true of the tables: every row sits
 * under its own non-blank guid, every category has a name with text, and
 * every item has its dates and refers to a category that exists. The
 * category check of `addNewChecklistItem` and the reference check of
 * `deleteCategory` are what keep the last part.
 */
module Integrity {
  import opened Entity
  import opened Repository
  import opened Categories
  import opened ChecklistItems
  import opened Dto

  /** Both tables. */
  datatype Db = Db(categories: CategoryTable, items: ItemTable)

  /** One call into either service, with the generated guid and the current date it would use. */
  datatype Call =
    | AddNewCategory(name: Option<string>, newGuid: string)
    | UpdateCategory(guid: Option<string>, name: Option<string>)
    | DeleteCategory(guid: Option<string>)
    | AddNewChecklistItem(description: Option<string>, isCompleted: Option<bool>, dateEnd: Option<Date>,
                          categoryGuid: Option<string>, newGuid: string, today: Date)
    | UpdateChecklistItem(guid: Option<string>, description: Option<string>, isCompleted: Option<bool>,
                          dateEnd: Option<Date>, categoryGuid: Option<string>)
    | UpdateIsCompleteStatus(guid: Option<string>, isCompleted: Option<bool>)
    | DeleteChecklistItem(guid: Option<string>)

  /** A generated guid is a non-blank string no row of its table has yet, as a random UUID is. */
  predicate Admissible(db: Db, call: Call)
  {
    match call
    case AddNewCategory(_, newGuid) => newGuid !in db.categories && HasText(Some(newGuid))
    case AddNewChecklistItem(_, _, _, _, newGuid, _) => newGuid !in db.items && HasText(Some(newGuid))
    case _ => true
  }

  /** The tables after one call, whatever its outcome. */
  function Apply(db: Db, call: Call): Db
    requires Admissible(db, call)
  {
    match call
    case AddNewCategory(name, newGuid) =>
      db.(categories := AddCategory(db.categories, name, newGuid).1)
    case UpdateCategory(guid, name) =>
      db.(categories := RenameCategory(db.categories, guid, name).1)
    case DeleteCategory(guid) =>
      db.(categories := RemoveCategory(db.categories, db.items, guid).1)
    case AddNewChecklistItem(description, isCompleted, dateEnd, categoryGuid, newGuid, today) =>
      db.(items := CreateItem(db.categories, db.items, description, isCompleted, dateEnd, categoryGuid, newGuid, today).1)
    case UpdateChecklistItem(guid, description, isCompleted, dateEnd, categoryGuid) =>
      db.(items := EditItem(db.categories, db.items, guid, description, isCompleted, dateEnd, categoryGuid).1)
    case UpdateIsCompleteStatus(guid, isCompleted) =>
      db.(items := SetCompletion(db.items, guid, isCompleted).1)
    case DeleteChecklistItem(guid) =>
      db.(items := RemoveItem(db.items, guid).1)
  }

  /** Every call in the sequence gets a fresh guid where it needs one. */
  predicate AllAdmissible(db: Db, calls: seq<Call>)
    decreases |calls|
  {
    calls == [] || (Admissible(db, calls[0]) && AllAdmissible(Apply(db, calls[0]), calls[1..]))
  }

  /** The tables after a sequence of calls. */
  function Run(db: Db, calls: seq<Call>): Db
    requires AllAdmissible(db, calls)
    decreases |calls|
  {
    if calls == [] then db else Run(Apply(db, calls[0]), calls[1..])
  }

  /** One call, of either service, keeps the tables consistent. */
  lemma ApplyKeepsConsistent(db: Db, call: Call)
    requires Consistent(db.categories, db.items) && Admissible(db, call)
    ensures Consistent(Apply(db, call).categories, Apply(db, call).items)
  {
  }

  /** Any sequence of calls keeps the tables consistent. */
  lemma {:induction false} RunKeepsConsistent(db: Db, calls: seq<Call>)
    requires Consistent(db.categories, db.items) && AllAdmissible(db, calls)
    ensures Consistent(Run(db, calls).categories, Run(db, calls).items)
    decreases |calls|
  {
    if calls != [] {
      ApplyKeepsConsistent(db, calls[0]);
      RunKeepsConsistent(Apply(db, calls[0]), calls[1..]);
    }
  }

  /**
   * Starting from empty tables, after any sequence of calls every item's
   * projection carries its category, the one its row refers to.
   */
  lemma {:induction false} ProjectionsHaveTheirCategory(calls: seq<Call>, g: string)
    requires AllAdmissible(Db(map[], map[]), calls)
    requires g in Run(Db(map[], map[]), calls).items
    ensures var db := Run(Db(map[], map[]), calls);
            var dto := ToDTO(Load(db.items[g], db.categories));
            dto.category.Some? && dto.category.value.guid == db.items[g].categoryGuid
  {
    RunKeepsConsistent(Db(map[], map[]), calls);
    var db := Run(Db(map[], map[]), calls);
    assert ItemStored(db.items[g], g, db.categories);
    assert CategoryStored(db.categories[db.items[g].categoryGuid.value], db.items[g].categoryGuid.value);
  }

  /**
   * Create the category "Home" and an item "Buy milk" in it: deleting "Home"
   * is then a conflict; once the item is deleted, deleting "Home" succeeds.
   */
  lemma HomeScenario()
    ensures
      var (addedHome, cats) := AddCategory(map[], Some("Home"), "c1");
      var (addedMilk, items) := CreateItem(cats, map[], Some("Buy milk"), Some(false), Some(10), Some("c1"), "i1", 1);
      var (removedMilk, itemsAfter) := RemoveItem(items, Some("i1"));
      && addedHome.Ok? && addedMilk.Ok? && removedMilk.Ok?
      && Referenced(items, "c1")
      && RemoveCategory(cats, items, Some("c1")).0 == Conflict
      && RemoveCategory(cats, itemsAfter, Some("c1")).0 == Ok(())
  {
    assert !IsWhitespace("Home"[0]);
    assert !IsWhitespace("Buy milk"[0]);
    assert !IsWhitespace("c1"[0]);
    assert !IsWhitespace("i1"[0]);
    var cats := AddCategory(map[], Some("Home"), "c1").1;
    var items := CreateItem(cats, map[], Some("Buy milk"), Some(false), Some(10), Some("c1"), "i1", 1).1;
    assert items["i1"].categoryGuid == Some("c1");
  }
}
