/** The inventory ledger: the supplier commands of main.py (register, add,
    update, merge, remove) as transitions of the store, and the two inventory
    queries (a supplier's own stock, the catalogue) as functions of it. */
module Ledger {
  import opened Rows

  /** The WHERE clauses of the inventory queries. */
  datatype ItemQuery =
    | NamedBy(supplier: UserId, name: string) // supplier_id = ? AND LOWER(item_name) = LOWER(?)
    | InStock                                 // catalogue: quantity > 0, joined with suppliers
    | StockOf(supplier: UserId)               // view_inventory: supplier_id = ? AND quantity > 0

  predicate Selected(db: Db, q: ItemQuery, it: Item) {
    match q
    case NamedBy(s, n) => it.supplierId == s && SameName(it.name, n)
    case InStock => it.quantity > 0 && it.supplierId in db.suppliers
    case StockOf(s) => it.supplierId == s && it.quantity > 0
  }

  /** The ids below `bound` of the rows `q` selects, in ascending order. */
  function SelectBelow(db: Db, q: ItemQuery, bound: nat): (ids: seq<ItemId>)
    ensures Increasing(ids)
    ensures forall i :: 0 <= i < |ids| ==>
      ids[i] < bound && ids[i] in db.inventory && Selected(db, q, db.inventory[ids[i]])
  {
    if bound == 0 then []
    else
      var prefix := SelectBelow(db, q, bound - 1);
      var id := bound - 1;
      if id in db.inventory && Selected(db, q, db.inventory[id]) then prefix + [id] else prefix
  }

  /** The rows `q` selects, ordered by id. */
  function Select(db: Db, q: ItemQuery): seq<ItemId> {
    SelectBelow(db, q, db.nextItemId)
  }

  lemma {:induction false} SelectBelowComplete(db: Db, q: ItemQuery, bound: nat, id: ItemId)
    requires id < bound && id in db.inventory && Selected(db, q, db.inventory[id])
    ensures id in SelectBelow(db, q, bound)
  {
    if id < bound - 1 {
      SelectBelowComplete(db, q, bound - 1, id);
    }
  }

  /** A query returns exactly the rows that satisfy its WHERE clause. */
  lemma SelectSpec(db: Db, q: ItemQuery, id: ItemId)
    requires Valid(db)
    ensures id in Select(db, q) <==> id in db.inventory && Selected(db, q, db.inventory[id])
  {
    if id in db.inventory && Selected(db, q, db.inventory[id]) {
      SelectBelowComplete(db, q, db.nextItemId, id);
    }
  }

  /** `view_inventory`: the supplier's own rows with a positive quantity. */
  function InventoryView(db: Db, supplier: UserId): seq<ItemId> {
    Select(db, StockOf(supplier))
  }

  /** `view_catalog`: every row with a positive quantity whose supplier row exists. */
  function Catalog(db: Db): seq<ItemId> {
    Select(db, InStock)
  }

  lemma InventoryViewSpec(db: Db, supplier: UserId, id: ItemId)
    requires Valid(db)
    ensures id in InventoryView(db, supplier) <==>
      id in db.inventory && db.inventory[id].supplierId == supplier && db.inventory[id].quantity > 0
  {
    SelectSpec(db, StockOf(supplier), id);
  }

  lemma CatalogSpec(db: Db, id: ItemId)
    requires Valid(db)
    ensures id in Catalog(db) <==>
      id in db.inventory && db.inventory[id].quantity > 0 && db.inventory[id].supplierId in db.suppliers
  {
    SelectSpec(db, InStock, id);
  }

  /** A supplier's inventory view lists the same rows as the catalogue does for that supplier. */
  lemma InventoryViewInCatalog(db: Db, supplier: UserId, id: ItemId)
    requires Valid(db)
    requires supplier in db.suppliers
    ensures id in InventoryView(db, supplier) <==> id in Catalog(db) && db.inventory[id].supplierId == supplier
  {
    InventoryViewSpec(db, supplier, id);
    CatalogSpec(db, id);
  }

  /** The sum of the quantities of the rows `ids`. */
  function QuantitySum(inv: map<ItemId, Item>, ids: seq<ItemId>): int
    requires forall i :: 0 <= i < |ids| ==> ids[i] in inv
  {
    if ids == [] then 0 else inv[ids[0]].quantity + QuantitySum(inv, ids[1..])
  }

  lemma {:induction false} QuantitySumNonNegative(inv: map<ItemId, Item>, ids: seq<ItemId>)
    requires forall i :: 0 <= i < |ids| ==> ids[i] in inv && inv[ids[i]].quantity >= 0
    ensures QuantitySum(inv, ids) >= 0
  {
    if ids != [] {
      QuantitySumNonNegative(inv, ids[1..]);
    }
  }

  /** The ids of a list, as a set. */
  function Elems(ids: seq<ItemId>): set<ItemId> {
    set id | id in ids
  }

  /** No supplier has two rows whose names match case-insensitively. */
  ghost predicate UniqueNames(db: Db) {
    forall a, b ::
      (a in db.inventory && b in db.inventory && a != b &&
       db.inventory[a].supplierId == db.inventory[b].supplierId) ==>
      !SameName(db.inventory[a].name, db.inventory[b].name)
  }

  // ---------------------------------------------------------------------------
  // register_supplier
  // ---------------------------------------------------------------------------

  /** `INSERT OR REPLACE` of the user's supplier row: the row is rewritten with
      the new display name and `active` back at its default. */
  function Register(db: Db, user: UserId, username: string): Step {
    Step(db.(suppliers := db.suppliers[user := Supplier(username, true)]), Accepted(user))
  }

  lemma RegisterSpec(db: Db, user: UserId, username: string)
    ensures var s := Register(db, user, username);
      && s.out == Accepted(user)
      && s.db.suppliers.Keys == db.suppliers.Keys + {user}
      && s.db.suppliers[user].username == username && s.db.suppliers[user].active
      && (forall u :: u in db.suppliers && u != user ==> s.db.suppliers[u] == db.suppliers[u])
      && s.db.inventory == db.inventory && s.db.orders == db.orders
      && s.db.nextItemId == db.nextItemId && s.db.nextOrderId == db.nextOrderId
  {
  }

  // ---------------------------------------------------------------------------
  // add_item
  // ---------------------------------------------------------------------------

  /** The row `add_item` rewrites when the name already exists: quantity added,
      price overwritten, description overwritten only by a non-empty one. */
  function Restock(cur: Item, quantity: int, price: int, description: string): Item {
    cur.(quantity := cur.quantity + quantity, price := price,
         description := if description != "" then description else cur.description)
  }

  /** `add_item`: an upsert keyed by supplier and case-insensitive name. The
      existing row is the first one the lookup returns, the lowest id. */
  function AddItem(db: Db, actor: UserId, name: string, quantity: int, price: int, description: string): Step {
    if actor !in db.suppliers then Reject(db, NotRegistered)
    else
      var matches := Select(db, NamedBy(actor, name));
      if matches != [] then
        var id := matches[0];
        Step(db.(inventory := db.inventory[id := Restock(db.inventory[id], quantity, price, description)]), Accepted(id))
      else
        var id := db.nextItemId;
        Step(db.(inventory := db.inventory[id := Item(actor, name, quantity, price, description)], nextItemId := id + 1),
             Accepted(id))
  }

  lemma AddItemRejects(db: Db, actor: UserId, name: string, quantity: int, price: int, description: string)
    ensures var s := AddItem(db, actor, name, quantity, price, description);
      && (s.out.Rejected? <==> actor !in db.suppliers)
      && (s.out.Rejected? ==> s.db == db && s.out.reason == NotRegistered)
  {
  }

  /** With a matching row the lowest-id match is updated in place and nothing
      else changes. */
  lemma AddItemUpdatesMatch(db: Db, actor: UserId, name: string, quantity: int, price: int, description: string, m: ItemId)
    requires Valid(db) && actor in db.suppliers
    requires m in db.inventory && db.inventory[m].supplierId == actor && SameName(db.inventory[m].name, name)
    ensures var s := AddItem(db, actor, name, quantity, price, description);
      && s.out.Accepted? && s.out.id in db.inventory && s.out.id <= m
      && var id: ItemId := s.out.id;
      && var cur := db.inventory[id];
      && cur.supplierId == actor && SameName(cur.name, name)
      && s.db.inventory.Keys == db.inventory.Keys
      && s.db.inventory[id].quantity == cur.quantity + quantity
      && s.db.inventory[id].price == price
      && s.db.inventory[id].description == (if description == "" then cur.description else description)
      && s.db.inventory[id].name == cur.name && s.db.inventory[id].supplierId == actor
      && (forall k :: k in db.inventory && k != id ==> s.db.inventory[k] == db.inventory[k])
      && s.db.suppliers == db.suppliers && s.db.orders == db.orders
      && s.db.nextItemId == db.nextItemId && s.db.nextOrderId == db.nextOrderId
  {
    var q := NamedBy(actor, name);
    SelectSpec(db, q, m);
    var matches := Select(db, q);
    var i :| 0 <= i < |matches| && matches[i] == m;
    assert matches[0] <= matches[i];
  }

  /** Without a matching row a new row with the given fields takes the next id. */
  lemma AddItemInserts(db: Db, actor: UserId, name: string, quantity: int, price: int, description: string)
    requires Valid(db) && actor in db.suppliers
    requires forall m :: m in db.inventory && db.inventory[m].supplierId == actor ==> !SameName(db.inventory[m].name, name)
    ensures var s := AddItem(db, actor, name, quantity, price, description);
      && s.out == Accepted(db.nextItemId)
      && db.nextItemId !in db.inventory
      && s.db.inventory == db.inventory[db.nextItemId := Item(actor, name, quantity, price, description)]
      && s.db.nextItemId == db.nextItemId + 1 && s.db.nextOrderId == db.nextOrderId
      && s.db.suppliers == db.suppliers && s.db.orders == db.orders
  {
  }

  /** Adding never creates a second row for a name: case-insensitive uniqueness
      per supplier is kept. */
  lemma AddItemKeepsUniqueNames(db: Db, actor: UserId, name: string, quantity: int, price: int, description: string)
    requires Valid(db) && UniqueNames(db)
    ensures var s := AddItem(db, actor, name, quantity, price, description);
      Valid(s.db) && UniqueNames(s.db)
  {
    var s := AddItem(db, actor, name, quantity, price, description);
    if actor in db.suppliers {
      if m :| m in db.inventory && db.inventory[m].supplierId == actor && SameName(db.inventory[m].name, name) {
        AddItemUpdatesMatch(db, actor, name, quantity, price, description, m);
      } else {
        AddItemInserts(db, actor, name, quantity, price, description);
        var n := db.nextItemId;
        forall a, b | a in s.db.inventory && b in s.db.inventory && a != b &&
          s.db.inventory[a].supplierId == s.db.inventory[b].supplierId
          ensures !SameName(s.db.inventory[a].name, s.db.inventory[b].name)
        {
          if a != n && b != n {
            assert s.db.inventory[a] == db.inventory[a] && s.db.inventory[b] == db.inventory[b];
          }
        }
      }
    }
  }

  // ---------------------------------------------------------------------------
  // update_item
  // ---------------------------------------------------------------------------

  /** `update_item`: an owner-checked update of whichever of quantity and price is given. */
  function UpdateItem(db: Db, actor: UserId, id: ItemId, quantity: Option<int>, price: Option<int>): Step {
    if quantity.None? && price.None? then Reject(db, NothingToUpdate)
    else if id !in db.inventory || db.inventory[id].supplierId != actor then Reject(db, NotFoundOrNotOwner)
    else
      var it := db.inventory[id];
      var it' := if quantity.Some? then it.(quantity := quantity.value) else it;
      var it'' := if price.Some? then it'.(price := price.value) else it';
      Step(db.(inventory := db.inventory[id := it'']), Accepted(id))
  }

  lemma UpdateItemSpec(db: Db, actor: UserId, id: ItemId, quantity: Option<int>, price: Option<int>)
    ensures var s := UpdateItem(db, actor, id, quantity, price);
      && (s.out.Accepted? <==>
            (quantity.Some? || price.Some?) && id in db.inventory && db.inventory[id].supplierId == actor)
      && (s.out.Rejected? ==> s.db == db)
      && (s.out.Accepted? ==>
            && s.out.id == id
            && s.db.inventory.Keys == db.inventory.Keys
            && s.db.inventory[id].quantity == (if quantity.Some? then quantity.value else db.inventory[id].quantity)
            && s.db.inventory[id].price == (if price.Some? then price.value else db.inventory[id].price)
            && s.db.inventory[id].supplierId == actor
            && s.db.inventory[id].name == db.inventory[id].name
            && s.db.inventory[id].description == db.inventory[id].description
            && (forall k :: k in db.inventory && k != id ==> s.db.inventory[k] == db.inventory[k])
            && s.db.suppliers == db.suppliers && s.db.orders == db.orders
            && s.db.nextItemId == db.nextItemId && s.db.nextOrderId == db.nextOrderId)
  {
  }

  /** Repeating an update changes nothing more. */
  lemma UpdateItemIdempotent(db: Db, actor: UserId, id: ItemId, quantity: Option<int>, price: Option<int>)
    ensures var s := UpdateItem(db, actor, id, quantity, price);
      UpdateItem(s.db, actor, id, quantity, price).db == s.db
  {
  }

  // ---------------------------------------------------------------------------
  // merge_items
  // ---------------------------------------------------------------------------

  /** `merge_items`: the rows of the actor matching `name`, by ascending id, are
      collapsed into the first one, which takes the summed quantity and the price
      and description of the last one; the others are deleted. */
  function MergeItems(db: Db, actor: UserId, name: string): Step {
    var ids := Select(db, NamedBy(actor, name));
    if |ids| <= 1 then Reject(db, NoDuplicates)
    else
      var keep := ids[0];
      var latest := db.inventory[ids[|ids| - 1]];
      var merged := db.inventory[keep].(quantity := QuantitySum(db.inventory, ids),
                                        price := latest.price, description := latest.description);
      Step(db.(inventory := db.inventory[keep := merged] - Elems(ids[1..])), Accepted(keep))
  }

  /** Merging fails exactly when the actor has fewer than two rows matching the name. */
  lemma MergeItemsRejects(db: Db, actor: UserId, name: string)
    requires Valid(db)
    ensures var s := MergeItems(db, actor, name);
      && (s.out.Rejected? <==>
            !exists a, b :: a in db.inventory && b in db.inventory && a != b &&
              Selected(db, NamedBy(actor, name), db.inventory[a]) &&
              Selected(db, NamedBy(actor, name), db.inventory[b]))
      && (s.out.Rejected? ==> s.db == db && s.out.reason == NoDuplicates)
  {
    var q := NamedBy(actor, name);
    var ids := Select(db, q);
    if |ids| > 1 {
      assert ids[0] < ids[1];
    } else {
      forall a, b | a in db.inventory && b in db.inventory && Selected(db, q, db.inventory[a]) && Selected(db, q, db.inventory[b])
        ensures a == b
      {
        SelectSpec(db, q, a);
        SelectSpec(db, q, b);
      }
    }
  }

  /** After a merge exactly one row matches the name: the lowest-id match, now
      holding the total quantity of all matches and the price and description of
      the highest-id match. Every other match is deleted, no row is added, and
      rows that did not match are untouched. */
  lemma MergeItemsEffect(db: Db, actor: UserId, name: string)
    requires Valid(db)
    ensures var s := MergeItems(db, actor, name);
      var q := NamedBy(actor, name);
      var ids := Select(db, q);
      s.out.Accepted? ==>
        && Valid(s.db)
        && |ids| >= 2 && s.out.id == ids[0]
        && Select(s.db, q) == [ids[0]]
        && s.db.inventory[ids[0]].quantity == QuantitySum(db.inventory, ids)
        && QuantitySum(s.db.inventory, Select(s.db, q)) == QuantitySum(db.inventory, ids)
        && s.db.inventory[ids[0]].price == db.inventory[ids[|ids| - 1]].price
        && s.db.inventory[ids[0]].description == db.inventory[ids[|ids| - 1]].description
        && s.db.inventory.Keys == db.inventory.Keys - Elems(ids[1..])
        && s.db.inventory[ids[0]].supplierId == actor
        && s.db.inventory[ids[0]].name == db.inventory[ids[0]].name
        && (forall k :: k in db.inventory && !Selected(db, q, db.inventory[k]) ==>
              k in s.db.inventory && s.db.inventory[k] == db.inventory[k])
        && s.db.suppliers == db.suppliers && s.db.orders == db.orders
        && s.db.nextItemId == db.nextItemId && s.db.nextOrderId == db.nextOrderId
  {
    var s := MergeItems(db, actor, name);
    var q := NamedBy(actor, name);
    var ids := Select(db, q);
    if s.out.Accepted? {
      var keep := ids[0];
      assert Valid(s.db);
      assert keep !in Elems(ids[1..]) by {
        forall i | 1 <= i < |ids| ensures ids[i] != keep { assert ids[0] < ids[i]; }
      }
      var after := Select(s.db, q);
      forall i | 0 <= i < |after| ensures after[i] == keep {
        SelectSpec(db, q, after[i]);
      }
      SelectSpec(s.db, q, keep);
      OnlyElement(after, keep);
      forall k | k in db.inventory && !Selected(db, q, db.inventory[k])
        ensures k in s.db.inventory && s.db.inventory[k] == db.inventory[k]
      {
        SelectSpec(db, q, k);
        assert k !in Elems(ids[1..]);
      }
    }
  }

  /** Under case-insensitive uniqueness there is never anything to merge. */
  lemma MergeItemsNeedsDuplicates(db: Db, actor: UserId, name: string)
    requires Valid(db) && UniqueNames(db)
    ensures MergeItems(db, actor, name) == Reject(db, NoDuplicates)
  {
    MergeItemsRejects(db, actor, name);
  }

  // ---------------------------------------------------------------------------
  // remove_item
  // ---------------------------------------------------------------------------

  /** `remove_item`: `DELETE ... WHERE id = ? AND supplier_id = ?`, accepted when a row went. */
  function RemoveItem(db: Db, actor: UserId, id: ItemId): Step {
    if id in db.inventory && db.inventory[id].supplierId == actor then
      Step(db.(inventory := db.inventory - {id}), Accepted(id))
    else Reject(db, NotFoundOrNotOwner)
  }

  lemma RemoveItemSpec(db: Db, actor: UserId, id: ItemId)
    ensures var s := RemoveItem(db, actor, id);
      && (s.out.Accepted? <==> id in db.inventory && db.inventory[id].supplierId == actor)
      && (s.out.Rejected? ==> s.db == db)
      && (s.out.Accepted? ==>
            && s.db.inventory.Keys == db.inventory.Keys - {id}
            && (forall k :: k in s.db.inventory ==> s.db.inventory[k] == db.inventory[k])
            && s.db.suppliers == db.suppliers && s.db.orders == db.orders
            && s.db.nextItemId == db.nextItemId && s.db.nextOrderId == db.nextOrderId)
  {
  }
}
