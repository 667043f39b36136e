/**
 * The two stores the services are given: a category table and a checklist
 * item table, each keyed by guid, with the few queries the services use.
 */
module Repository {
  import opened Entity

  type CategoryTable = map<string, CategoryEntity>
  type ItemTable = map<string, ChecklistItemRow>

  /** `findByGuid`: the row under that guid; a null guid matches no row. */
  function Lookup<T>(table: map<string, T>, guid: Option<string>): Option<T>
  {
    if guid.Some? && guid.value in table then Some(table[guid.value]) else None
  }

  /** `findByCategoryGuid(guid)` is not empty: some item refers to that category. */
  predicate Referenced(items: ItemTable, guid: string)
  {
    exists g :: g in items && items[g].categoryGuid == Some(guid)
  }

  /** The item graph the persistence layer loads: the category reference resolved in the category table. */
  function Load(row: ChecklistItemRow, categories: CategoryTable): (e: ChecklistItemEntity)
    ensures e.guid == Some(row.guid)
    ensures e.description == row.description && e.isCompleted == row.isCompleted
    ensures e.dateEnd == row.dateEnd && e.datePost == row.datePost
    ensures e.category.Some? <==> row.categoryGuid.Some? && row.categoryGuid.value in categories
    ensures e.category.Some? ==> e.category.value == categories[row.categoryGuid.value]
  {
    ChecklistItemEntity(Some(row.guid), row.description, row.isCompleted, row.dateEnd, row.datePost,
                        Lookup(categories, row.categoryGuid))
  }

  /** A stored category sits under its own guid, a non-blank one, and has a name with text. */
  predicate CategoryStored(c: CategoryEntity, key: string)
  {
    c.guid == Some(key) && HasText(Some(key)) && HasText(c.name)
  }

  /** A stored item sits under its own non-blank guid, has its due and posting dates, and refers to a stored category. */
  predicate ItemStored(item: ChecklistItemRow, key: string, categories: CategoryTable)
  {
    && item.guid == key
    && HasText(Some(key))
    && item.dateEnd.Some?
    && item.datePost.Some?
    && item.categoryGuid.Some?
    && item.categoryGuid.value in categories
  }

  /** What the two tables hold whatever sequence of service calls produced them. */
  predicate Consistent(categories: CategoryTable, items: ItemTable)
  {
    && (forall g :: g in categories ==> CategoryStored(categories[g], g))
    && (forall g :: g in items ==> ItemStored(items[g], g, categories))
  }

  /**
   * `rows` lists every row of `table` exactly once: `keys[i]` is the key
   * `rows[i]` is stored under, no key is listed twice and none is missed.
   */
  ghost predicate Enumerates<T>(table: map<string, T>, rows: seq<T>, keys: seq<string>)
  {
    && |keys| == |rows|
    && (forall i :: 0 <= i < |keys| ==> keys[i] in table && rows[i] == table[keys[i]])
    && (forall i, j :: 0 <= i < j < |keys| ==> keys[i] != keys[j])
    && (forall g :: g in table ==> g in keys)
  }

  /**
   * `findAll`: every row of the table exactly once, in an order the store
   * chooses (here, whichever key it happens to pick next).
   */
  method ListRows<T(==)>(table: map<string, T>) returns (rows: seq<T>, ghost keys: seq<string>)
    ensures Enumerates(table, rows, keys)
    ensures |rows| == |table|
    ensures forall v :: v in rows <==> v in table.Values
  {
    rows, keys := [], [];
    var rest := table.Keys;
    ghost var done: set<string> := {};
    while rest != {}
      invariant rest !! done && rest + done == table.Keys
      invariant |rows| == |done| == |keys|
      invariant forall i :: 0 <= i < |keys| ==> keys[i] in done && rows[i] == table[keys[i]]
      invariant forall i, j :: 0 <= i < j < |keys| ==> keys[i] != keys[j]
      invariant forall g :: g in done ==> g in keys
      invariant forall g :: g in done ==> table[g] in rows
      invariant forall v :: v in rows ==> exists g :: g in done && table[g] == v
      decreases |rest|
    {
      var g :| g in rest;
      rows, keys := rows + [table[g]], keys + [g];
      rest := rest - {g};
      done := done + {g};
    }
    assert done == table.Keys;
  }

  /** The category table (`CategoryRepository`). */
  class CategoryRepository {
    var rows: CategoryTable

    /** Every category sits under its own guid. */
    ghost predicate Valid()
      reads this
    {
      forall g :: g in rows ==> rows[g].guid == Some(g)
    }

    constructor ()
      ensures Valid() && rows == map[]
    {
      rows := map[];
    }

    method FindByGuid(guid: Option<string>) returns (r: Option<CategoryEntity>)
      ensures r.Some? <==> guid.Some? && guid.value in rows
      ensures r.Some? ==> r.value == rows[guid.value]
    {
      r := Lookup(rows, guid);
    }

    method FindAll() returns (r: seq<CategoryEntity>, ghost keys: seq<string>)
      ensures Enumerates(rows, r, keys)
      ensures |r| == |rows|
      ensures forall c :: c in r <==> c in rows.Values
    {
      r, keys := ListRows(rows);
    }

    /** `save`: inserts the row, or replaces the row with the same guid. */
    method Save(c: CategoryEntity) returns (saved: CategoryEntity)
      requires Valid() && c.guid.Some?
      modifies this
      ensures Valid() && saved == c
      ensures rows == old(rows)[c.guid.value := c]
    {
      rows := rows[c.guid.value := c];
      saved := c;
    }

    method Delete(c: CategoryEntity)
      requires Valid() && c.guid.Some?
      modifies this
      ensures Valid()
      ensures rows == old(rows) - {c.guid.value}
    {
      rows := rows - {c.guid.value};
    }
  }

  /** The checklist item table (`ChecklistItemRepository`). */
  class ChecklistItemRepository {
    var rows: ItemTable

    /** Every item sits under its own guid. */
    ghost predicate Valid()
      reads this
    {
      forall g :: g in rows ==> rows[g].guid == g
    }

    constructor ()
      ensures Valid() && rows == map[]
    {
      rows := map[];
    }

    method FindByGuid(guid: Option<string>) returns (r: Option<ChecklistItemRow>)
      ensures r.Some? <==> guid.Some? && guid.value in rows
      ensures r.Some? ==> r.value == rows[guid.value]
    {
      r := Lookup(rows, guid);
    }

    method FindAll() returns (r: seq<ChecklistItemRow>, ghost keys: seq<string>)
      ensures Enumerates(rows, r, keys)
      ensures |r| == |rows|
      ensures forall item :: item in r <==> item in rows.Values
    {
      r, keys := ListRows(rows);
    }

    /** `findByCategoryGuid`: the items that refer to the category with that guid. */
    method FindByCategoryGuid(guid: string) returns (r: seq<ChecklistItemRow>)
      ensures forall item :: item in r <==> item in rows.Values && item.categoryGuid == Some(guid)
      ensures r == [] <==> !Referenced(rows, guid)
    {
      var matching := map g | g in rows && rows[g].categoryGuid == Some(guid) :: rows[g];
      ghost var keys;
      r, keys := ListRows(matching);
      forall item | item in rows.Values && item.categoryGuid == Some(guid)
        ensures item in matching.Values
      {
        var g :| g in rows && rows[g] == item;
        assert matching[g] == item;
      }
      if Referenced(rows, guid) {
        var g :| g in rows && rows[g].categoryGuid == Some(guid);
        assert matching[g] in r;
      }
    }

    /** `save`: inserts the row, or replaces the row with the same guid. */
    method Save(item: ChecklistItemRow) returns (saved: ChecklistItemRow)
      requires Valid()
      modifies this
      ensures Valid() && saved == item
      ensures rows == old(rows)[item.guid := item]
    {
      rows := rows[item.guid := item];
      saved := item;
    }

    method Delete(item: ChecklistItemRow)
      requires Valid()
      modifies this
      ensures Valid()
      ensures rows == old(rows) - {item.guid}
    {
      rows := rows - {item.guid};
    }
  }
}
