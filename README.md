# Checklist API service layer, modelled in Dafny

This project models the service layer of a checklist REST API. The API keeps
checklist items grouped into named categories. Both kinds of entity are
addressed by a string `guid`.

- `CategoryService` creates, renames, lists, looks up and deletes categories.
  It refuses to delete a category that an item still refers to.
- `ChecklistItemService` validates and creates items (the category must exist),
  updates them field by field, sets their completion flag, lists, looks up and
  deletes them.
- `ChecklistItemDTO.toDTO` projects an item, with its nested category, to its
  outward shape.

## Layout

- `entity.dfy` (module `Entity`): nullable values (`Option`), the outcome of a
  service call (`Ok`, `ValidationError`, `NotFound`, `Conflict`, one per
  exception class), `HasText` (Spring's `StringUtils.hasText`, with Java's
  `Character.isWhitespace`), and the entities. An item row stores its category
  as a reference (the category's guid), like the join column the persistence
  layer keeps. `ChecklistItemEntity` is the item as loaded, with its category
  resolved.
- `repository.dfy` (module `Repository`): the two tables as classes holding a
  `map` from guid to row. They offer `findByGuid`, `findAll`,
  `findByCategoryGuid`, `save` and `delete`. The module also holds
  `Consistent`, the invariant both tables keep.
- `category_service.dfy` (module `Categories`) and `checklist_item_service.dfy`
  (module `ChecklistItems`): each operation first as a function from the
  tables to `(outcome, new table)`, stating its guard order and effect, and
  then as a method of the service class. The method runs the same guard chain
  against the repositories, and its `ensures` ties its result and the new
  table to that function. Lemmas state the behaviours worth knowing about.
- `checklist_item_dto.dfy` (module `Dto`): the projection.
- `integrity.dfy` (module `Integrity`): every call of either service keeps
  the tables consistent, and so does any sequence of calls. It also proves a
  create / conflict / delete scenario.

Generated guids (`UUID.randomUUID()`) and the current date
(`LocalDate.now()`) are parameters. A generated guid must not already be in
its table. Dates are whole day numbers.

## Where the code and its documented intent differ

The model follows the code.

- `updateChecklistItem` tests `!StringUtils.hasText(description)` and
  `!StringUtils.hasText(categoryGuid)`. The documented policy is "apply a value
  only when one is supplied", which would need the opposite tests. As written,
  a description with text is ignored, and a blank or null one overwrites the
  stored description (`ChecklistItems.EditDescriptionIsInverted`).
- For the same reason, a category guid with text leaves the category
  unchanged. A blank or null one is looked up, and no stored category has such
  a guid. So on consistent tables that update always ends NotFound, and a
  successful update never moves an item to another category
  (`ChecklistItems.EditNeverMovesCategory`).
- `updateCategory` rejects only a null guid. The documentation and the unit
  test for an empty guid expect a validation error. In the code, an empty guid
  goes on to the lookup and ends NotFound
  (`Categories.RenameWithEmptyGuidIsNotFound`).

## Model

| member | source | states |
|---|---|---|
| `ChecklistItems.ValidateChecklistItemData` | src/main/java/com/learning/springboot/checklistapi/service/ChecklistItemService.java:43-59 | Reports a broken rule exactly when the arguments break one. The rule it reports is broken, and every rule checked before it (blank description, blank category guid, null isCompleted, null dateEnd) holds. |
| `ChecklistItems.BlankDescriptionReportedFirst` | src/main/java/com/learning/springboot/checklistapi/service/ChecklistItemService.java:44-46 | An empty description is the rule reported, whatever else is wrong. |
| `ChecklistItems.CreateItem` | src/main/java/com/learning/springboot/checklistapi/service/ChecklistItemService.java:120-139 | Failed validation gives ValidationError. Otherwise an unknown category gives NotFound. Either failure leaves the item table unchanged. On success exactly one row is added, under the fresh guid, and every other row is untouched. The new item has the given description, flag and due date, datePost equal to today, and the category found. |
| `ChecklistItems.CreateThenFind` | src/main/java/com/learning/springboot/checklistapi/service/ChecklistItemService.java:128-138 | Looking up a newly created item by its guid gives back the entity the create call returned. |
| `ChecklistItems.FindTarget` | src/main/java/com/learning/springboot/checklistapi/service/ChecklistItemService.java:75-81 | The shared guard. A blank guid gives ValidationError, an unknown guid gives NotFound, and a known guid gives the row stored under it. |
| `ChecklistItems.SharedGuard` | src/main/java/com/learning/springboot/checklistapi/service/ChecklistItemService.java:149-157 | When the guard fails, update, find, delete and status-update all fail with the guard's error and write nothing. |
| `ChecklistItems.EditItem` | src/main/java/com/learning/springboot/checklistapi/service/ChecklistItemService.java:73-107 | Guard errors come first. An unresolved blank category guid then gives NotFound, and every failure leaves the table unchanged. On success only the target row changes, and its guid and datePost are kept. The description is replaced only by an argument with no text. The flag and due date are replaced only when given. The category reference is replaced only by a category guid with no text. |
| `ChecklistItems.EditDescriptionIsInverted` | src/main/java/com/learning/springboot/checklistapi/service/ChecklistItemService.java:83-85 | After a successful update, a description with text has been ignored, and a blank or null one has been stored. |
| `ChecklistItems.EditNeverMovesCategory` | src/main/java/com/learning/springboot/checklistapi/service/ChecklistItemService.java:95-101 | On consistent tables, an update of an existing item with a blank or null category guid is NotFound. A successful update had a category guid with text and kept the item's category. |
| `ChecklistItems.SetCompletion` | src/main/java/com/learning/springboot/checklistapi/service/ChecklistItemService.java:189-203 | After the shared guard, only the target's isCompleted changes. It becomes the argument, even when that is null. |
| `ChecklistItems.RemoveItem` | src/main/java/com/learning/springboot/checklistapi/service/ChecklistItemService.java:175-187 | After the shared guard, exactly the row with that guid is removed and every other row is unchanged. |
| `ChecklistItems.LookupItem` | src/main/java/com/learning/springboot/checklistapi/service/ChecklistItemService.java:149-157 | After the shared guard, gives the item under that guid with its category loaded. |
| `ChecklistItems.ChecklistItemService.constructor` | src/main/java/com/learning/springboot/checklistapi/service/ChecklistItemService.java:28-32 | The service is wired to the two repositories it is given. |
| `ChecklistItems.ChecklistItemService.UpdateChecklistItem` | src/main/java/com/learning/springboot/checklistapi/service/ChecklistItemService.java:73-107 | Result and new item table are those of `EditItem`. The category table is not modified. |
| `ChecklistItems.ChecklistItemService.AddNewChecklistItem` | src/main/java/com/learning/springboot/checklistapi/service/ChecklistItemService.java:120-139 | Result and new item table are those of `CreateItem`. The category table is not modified. |
| `ChecklistItems.ChecklistItemService.FindChecklistItemByGuid` | src/main/java/com/learning/springboot/checklistapi/service/ChecklistItemService.java:149-157 | Changes nothing and returns what `LookupItem` gives on the current tables. |
| `ChecklistItems.ChecklistItemService.FindAllChecklistItems` | src/main/java/com/learning/springboot/checklistapi/service/ChecklistItemService.java:164-166 | Lists every stored item exactly once, loaded with its category, and nothing else. |
| `ChecklistItems.ChecklistItemService.DeleteChecklistItem` | src/main/java/com/learning/springboot/checklistapi/service/ChecklistItemService.java:175-187 | Result and new item table are those of `RemoveItem`. Categories are not modified. |
| `ChecklistItems.ChecklistItemService.UpdateIsCompleteStatus` | src/main/java/com/learning/springboot/checklistapi/service/ChecklistItemService.java:189-203 | Result and new item table are those of `SetCompletion`. |
| `Categories.AddCategory` | src/main/java/com/learning/springboot/checklistapi/service/CategoryService.java:38-50 | Succeeds exactly when the name has text. Failure is ValidationError with the table unchanged. On success the fresh guid is the one new key, its category has that guid and the given name, and every other category is untouched. |
| `Categories.AddThenFind` | src/main/java/com/learning/springboot/checklistapi/service/CategoryService.java:43-49 | Looking up a newly added category by its guid gives that guid and the given name. |
| `Categories.AddGrowsByOne` | src/main/java/com/learning/springboot/checklistapi/service/CategoryService.java:43-49 | A successful add grows the category table by exactly one. |
| `Categories.RenameCategory` | src/main/java/com/learning/springboot/checklistapi/service/CategoryService.java:60-74 | ValidationError exactly when the guid is null or the name has no text. Otherwise NotFound exactly when the guid is unknown. Never Conflict. A failure leaves the table unchanged. On success the keys are the same, only that category's name changes, and its guid is kept. |
| `Categories.RenameWithEmptyGuidIsNotFound` | src/main/java/com/learning/springboot/checklistapi/service/CategoryService.java:61-67 | An empty guid with a valid name passes the check, reaches the lookup and ends NotFound, not ValidationError. |
| `Categories.RenameIsSeenByItems` | src/main/java/com/learning/springboot/checklistapi/service/CategoryService.java:65-73 | After a rename, every item referring to that category loads it with the new name. |
| `Categories.RemoveCategory` | src/main/java/com/learning/springboot/checklistapi/service/CategoryService.java:83-100 | Checks in order: a blank guid gives ValidationError, a missing category NotFound, a referenced category Conflict, each exactly when the earlier checks passed. A failure removes nothing. Success removes exactly that key and keeps every other category. |
| `Categories.RemoveSucceedsIffUnreferenced` | src/main/java/com/learning/springboot/checklistapi/service/CategoryService.java:90-99 | Deleting an existing category succeeds if and only if no item refers to it. |
| `Categories.LookupCategory` | src/main/java/com/learning/springboot/checklistapi/service/CategoryService.java:119-129 | A blank guid gives ValidationError, otherwise an unknown guid gives NotFound, otherwise the result is the category stored under that guid. |
| `Categories.CategoryService.constructor` | src/main/java/com/learning/springboot/checklistapi/service/CategoryService.java:27-30 | The service is wired to the two repositories it is given. |
| `Categories.CategoryService.AddNewCategory` | src/main/java/com/learning/springboot/checklistapi/service/CategoryService.java:38-50 | Result and new category table are those of `AddCategory`. The item table is not modified. |
| `Categories.CategoryService.UpdateCategory` | src/main/java/com/learning/springboot/checklistapi/service/CategoryService.java:60-74 | Result and new category table are those of `RenameCategory`. |
| `Categories.CategoryService.DeleteCategory` | src/main/java/com/learning/springboot/checklistapi/service/CategoryService.java:83-100 | Result and new category table are those of `RemoveCategory` against the current items. The item table is not modified. |
| `Categories.CategoryService.FindAllCategories` | src/main/java/com/learning/springboot/checklistapi/service/CategoryService.java:106-110 | Lists every stored category exactly once and nothing else. |
| `Categories.CategoryService.FindCategoryByGuid` | src/main/java/com/learning/springboot/checklistapi/service/CategoryService.java:119-129 | Changes nothing and returns what `LookupCategory` gives on the current table. |
| `Dto.ToDTO` | src/main/java/com/learning/springboot/checklistapi/dto/ChecklistItemDTO.java:57-73 | Has no precondition. Copies guid, description, isCompleted, dateEnd and datePost unchanged. The nested category is null exactly when the entity has none; otherwise it has that category's guid and name. |
| `Dto.ToDTOInjective` | src/main/java/com/learning/springboot/checklistapi/dto/ChecklistItemDTO.java:59-71 | The projection loses nothing the model keeps: entities with equal projections are equal. The surrogate ids and the category's item list, which the model leaves out, are dropped by the source's `toDTO`. |
| `Repository.Load` | src/main/java/com/learning/springboot/checklistapi/entity/CategoryEntity.java:30-31 | A loaded item carries its row's guid, description, isCompleted, dateEnd and datePost unchanged. It has a category exactly when the referenced category exists, and that category is the one stored under the referenced guid. |
| `Repository.ListRows` | src/main/java/com/learning/springboot/checklistapi/repository/CategoryRepository.java:15 | `findAll`: lists every row of the table exactly once, each next to the key it is stored under, so the result is as long as the table and holds exactly its rows. |
| `Repository.CategoryRepository.FindByGuid` | src/main/java/com/learning/springboot/checklistapi/repository/CategoryRepository.java:29 | Finds a row exactly when the guid is non-null and a key of the table, and then gives that row. |
| `Repository.ChecklistItemRepository.FindByGuid` | src/main/java/com/learning/springboot/checklistapi/repository/ChecklistItemRepository.java:22 | Finds a row exactly when the guid is non-null and a key of the table, and then gives that row. |
| `Entity.HasText` | src/main/java/com/learning/springboot/checklistapi/service/CategoryService.java:39 | `StringUtils.hasText`: null and empty strings have no text, and a string whose first character is not whitespace has text. |
| `Entity.StripLeading` | src/main/java/com/learning/springboot/checklistapi/service/CategoryService.java:39 | The reference for `hasText`: drops exactly the leading whitespace, so what is left is a suffix that is empty or starts with a non-blank character. |
| `Entity.HasTextIffStripped` | src/main/java/com/learning/springboot/checklistapi/service/CategoryService.java:39 | A string has text if and only if stripping its leading whitespace leaves something. |
| `Repository.CategoryRepository.FindAll` | src/main/java/com/learning/springboot/checklistapi/repository/CategoryRepository.java:15 | The inherited `findAll`: lists every stored category exactly once and nothing else. |
| `Repository.CategoryRepository.Save` | src/main/java/com/learning/springboot/checklistapi/repository/CategoryRepository.java:15 | The inherited `save`: returns the row given and stores it under its guid, replacing any row with that guid. Every other row is unchanged. |
| `Repository.CategoryRepository.Delete` | src/main/java/com/learning/springboot/checklistapi/repository/CategoryRepository.java:15 | The inherited `delete`: removes exactly the row under that category's guid. |
| `Repository.ChecklistItemRepository.FindAll` | src/main/java/com/learning/springboot/checklistapi/repository/ChecklistItemRepository.java:15 | The inherited `findAll`: lists every stored item exactly once and nothing else. |
| `Repository.ChecklistItemRepository.Save` | src/main/java/com/learning/springboot/checklistapi/repository/ChecklistItemRepository.java:15 | The inherited `save`: returns the row given and stores it under its guid, replacing any row with that guid. Every other row is unchanged. |
| `Repository.ChecklistItemRepository.Delete` | src/main/java/com/learning/springboot/checklistapi/repository/ChecklistItemRepository.java:15 | The inherited `delete`: removes exactly the row under that item's guid. |
| `Repository.ChecklistItemRepository.FindByCategoryGuid` | src/main/java/com/learning/springboot/checklistapi/repository/ChecklistItemRepository.java:37 | Returns exactly the stored items that refer to that category. It is empty exactly when no item refers to it. |
| `Integrity.ApplyKeepsConsistent` | src/main/java/com/learning/springboot/checklistapi/service/CategoryService.java:92-95 | Any single call of either service keeps the tables consistent. Consistent means rows sit under their own non-blank guids, names have text, items have both dates, and every item refers to an existing category. |
| `Integrity.RunKeepsConsistent` | src/main/java/com/learning/springboot/checklistapi/service/ChecklistItemService.java:124-126 | Any sequence of calls with fresh generated guids keeps the tables consistent. |
| `Integrity.ProjectionsHaveTheirCategory` | src/main/java/com/learning/springboot/checklistapi/dto/ChecklistItemDTO.java:65-70 | Starting from empty tables, after any sequence of calls every item's projection has a nested category: the one its row refers to. |
| `Integrity.HomeScenario` | src/main/java/com/learning/springboot/checklistapi/service/CategoryService.java:83-99 | Scenario: add category "Home", then item "Buy milk" in it. Deleting "Home" is then a Conflict. After the item is deleted, deleting "Home" succeeds. |

## Left out

- The controllers (HTTP routing, status codes, request bodies), the exception handler that maps exceptions to HTTP responses, and the application bootstrap. They are transport and wiring, not service logic.
- Logging (`log.debug`).
- `UUID.randomUUID()` and `LocalDate.now()` are parameters of the calls that use them. Dates are day numbers, since the service only copies them and checks them for null.
- Persistence behaviour the service does not implement. This covers the cascade on the category's item list, the database's unique constraint on category names, surrogate ids, and the store failures that would surface as internal errors. A name clash is therefore never a Conflict in this model.
- `findByName` and `findByDescriptionAndIsCompleted`, which no service calls.
- `CategoryDTO.toDTO`: it is the same two-field copy `Dto.ToDTO` makes for the nested category.
- Concurrency: each call is modelled as one atomic step. The read-then-delete race in `deleteCategory` is not represented.
- Field injection in `ChecklistItemService`: the source injects the repositories into fields. The model passes them to a constructor so that both services can share the same two tables.
- Services return the saved row with its category loaded. The model does not represent object identity, so a setter on a retrieved entity whose call then fails is not written back; the code never saves it either.
