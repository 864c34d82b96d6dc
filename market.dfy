/** The marketplace store as one object whose handler methods update its tables
    in place, each proved to do exactly what the matching transition of
    `Ledger` or `Lifecycle` says. */
module Market {
  import opened Rows
  import Ledger
  import Lifecycle

  class Marketplace {
    var suppliers: map<UserId, Supplier>
    var inventory: map<ItemId, Item>
    var orders: map<OrderId, Order>
    var nextItemId: nat
    var nextOrderId: nat

    /** The tables as a value. */
    function State(): Db
      reads this
    {
      Db(suppliers, inventory, orders, nextItemId, nextOrderId)
    }

    ghost predicate Valid()
      reads this
    {
      Rows.Valid(State())
    }

    constructor ()
      ensures Valid() && State() == Empty
    {
      suppliers, inventory, orders := map[], map[], map[];
      nextItemId, nextOrderId := 1, 1;
    }

    /** `SupplierCommands.register_supplier`. */
    method RegisterSupplier(user: UserId, username: string) returns (r: Outcome)
      requires Valid()
      modifies this
      ensures Valid()
      ensures Step(State(), r) == Ledger.Register(old(State()), user, username)
    {
      suppliers := suppliers[user := Supplier(username, true)];
      r := Accepted(user);
    }

    /** `SupplierCommands.add_item`. */
    method AddItem(actor: UserId, name: string, quantity: int, price: int, description: string) returns (r: Outcome)
      requires Valid()
      modifies this
      ensures Valid()
      ensures Step(State(), r) == Ledger.AddItem(old(State()), actor, name, quantity, price, description)
    {
      if actor !in suppliers {
        return Rejected(NotRegistered);
      }
      var matches := Ledger.Select(State(), Ledger.NamedBy(actor, name));
      if matches != [] {
        var id := matches[0];
        var cur := inventory[id];
        var newQuantity := cur.quantity + quantity;
        var newDescription := if description != "" then description else cur.description;
        inventory := inventory[id := cur.(quantity := newQuantity, price := price, description := newDescription)];
        r := Accepted(id);
      } else {
        var id := nextItemId;
        inventory := inventory[id := Item(actor, name, quantity, price, description)];
        nextItemId := nextItemId + 1;
        r := Accepted(id);
      }
    }

    /** `SupplierCommands.update_item`: the SET list is built field by field. */
    method UpdateItem(actor: UserId, itemId: ItemId, quantity: Option<int>, price: Option<int>) returns (r: Outcome)
      requires Valid()
      modifies this
      ensures Valid()
      ensures Step(State(), r) == Ledger.UpdateItem(old(State()), actor, itemId, quantity, price)
    {
      if quantity.None? && price.None? {
        return Rejected(NothingToUpdate);
      }
      if itemId !in inventory || inventory[itemId].supplierId != actor {
        return Rejected(NotFoundOrNotOwner);
      }
      var row := inventory[itemId];
      if quantity.Some? {
        row := row.(quantity := quantity.value);
      }
      if price.Some? {
        row := row.(price := price.value);
      }
      inventory := inventory[itemId := row];
      r := Accepted(itemId);
    }

    /** `SupplierCommands.merge_items`: the first row takes the totals, then the
        other rows are deleted one by one. */
    method MergeItems(actor: UserId, name: string) returns (r: Outcome)
      requires Valid()
      modifies this
      ensures Valid()
      ensures Step(State(), r) == Ledger.MergeItems(old(State()), actor, name)
    {
      var ids := Ledger.Select(State(), Ledger.NamedBy(actor, name));
      if |ids| <= 1 {
        return Rejected(NoDuplicates);
      }
      var keep := ids[0];
      var latest := inventory[ids[|ids| - 1]];
      var total := Ledger.QuantitySum(inventory, ids);
      inventory := inventory[keep := inventory[keep].(quantity := total, price := latest.price,
                                                       description := latest.description)];
      DeleteRows(ids[1..]);
      r := Accepted(keep);
    }

    /** The `DELETE FROM inventory WHERE id = ?` loop of `merge_items`. */
    method DeleteRows(ids: seq<ItemId>)
      requires Valid()
      modifies this
      ensures Valid()
      ensures inventory == old(inventory) - Ledger.Elems(ids)
      ensures suppliers == old(suppliers) && orders == old(orders)
      ensures nextItemId == old(nextItemId) && nextOrderId == old(nextOrderId)
    {
      var i := 0;
      while i < |ids|
        invariant 0 <= i <= |ids|
        invariant inventory == old(inventory) - Ledger.Elems(ids[..i])
        invariant suppliers == old(suppliers) && orders == old(orders)
        invariant nextItemId == old(nextItemId) && nextOrderId == old(nextOrderId)
      {
        assert Ledger.Elems(ids[..i + 1]) == Ledger.Elems(ids[..i]) + {ids[i]} by {
          assert ids[..i + 1] == ids[..i] + [ids[i]];
        }
        inventory := inventory - {ids[i]};
        i := i + 1;
      }
      assert ids[..i] == ids;
    }

    /** `SupplierCommands.remove_item`. */
    method RemoveItem(actor: UserId, itemId: ItemId) returns (r: Outcome)
      requires Valid()
      modifies this
      ensures Valid()
      ensures Step(State(), r) == Ledger.RemoveItem(old(State()), actor, itemId)
    {
      if itemId in inventory && inventory[itemId].supplierId == actor {
        inventory := inventory - {itemId};
        r := Accepted(itemId);
      } else {
        r := Rejected(NotFoundOrNotOwner);
      }
    }

    /** `CustomerCommands.place_order`. */
    method PlaceOrder(customer: UserId, itemId: ItemId, quantity: int, location: string, deliveryTime: string)
      returns (r: Outcome)
      requires Valid()
      modifies this
      ensures Valid()
      ensures Step(State(), r) == Lifecycle.Place(old(State()), customer, itemId, quantity, location, deliveryTime)
    {
      if itemId !in inventory || inventory[itemId].supplierId !in suppliers {
        return Rejected(ItemNotFound);
      }
      var it := inventory[itemId];
      if quantity > it.quantity {
        return Rejected(InsufficientStock);
      }
      if customer == it.supplierId {
        return Rejected(SelfOrder);
      }
      var totalPrice := it.price * quantity;
      var id := nextOrderId;
      orders := orders[id := Order(customer, it.supplierId, itemId, quantity, totalPrice,
                                   location, deliveryTime, Pending, false)];
      nextOrderId := nextOrderId + 1;
      inventory := inventory[itemId := inventory[itemId].(quantity := inventory[itemId].quantity - quantity)];
      r := Accepted(id);
    }

    /** `SupplierOrderView.confirm_order`. */
    method ConfirmOrder(actor: UserId, orderId: OrderId) returns (r: Outcome)
      requires Valid()
      modifies this
      ensures Valid()
      ensures Step(State(), r) == Lifecycle.Confirm(old(State()), orderId, actor)
    {
      if !Lifecycle.Actionable(State(), orderId, actor, Lifecycle.BySupplier) {
        return Rejected(NotFoundOrProcessed);
      }
      orders := orders[orderId := orders[orderId].(status := Completed, completedAt := true)];
      r := Accepted(orderId);
    }

    /** The shared body of the two `cancel_order` handlers. */
    method CancelOrder(actor: UserId, orderId: OrderId, party: Lifecycle.Party) returns (r: Outcome)
      requires Valid()
      modifies this
      ensures Valid()
      ensures Step(State(), r) == Lifecycle.Cancel(old(State()), orderId, actor, party)
    {
      if !Lifecycle.Actionable(State(), orderId, actor, party) {
        return Rejected(NotFoundOrProcessed);
      }
      var o := orders[orderId];
      orders := orders[orderId := o.(status := Cancelled)];
      inventory := inventory[o.itemId := inventory[o.itemId].(quantity := inventory[o.itemId].quantity + o.quantity)];
      r := Accepted(orderId);
    }

    /** `SupplierOrderView.cancel_order`. */
    method SupplierCancelOrder(actor: UserId, orderId: OrderId) returns (r: Outcome)
      requires Valid()
      modifies this
      ensures Valid()
      ensures Step(State(), r) == Lifecycle.Cancel(old(State()), orderId, actor, Lifecycle.BySupplier)
    {
      r := CancelOrder(actor, orderId, Lifecycle.BySupplier);
    }

    /** `CustomerOrderView.cancel_order`. */
    method CustomerCancelOrder(actor: UserId, orderId: OrderId) returns (r: Outcome)
      requires Valid()
      modifies this
      ensures Valid()
      ensures Step(State(), r) == Lifecycle.Cancel(old(State()), orderId, actor, Lifecycle.ByCustomer)
    {
      r := CancelOrder(actor, orderId, Lifecycle.ByCustomer);
    }
  }

  /** A fresh store in which `supplier` is registered and lists ten of `name`. */
  method ListedItem(supplier: UserId, name: string) returns (m: Marketplace)
    ensures fresh(m) && m.Valid()
    ensures m.State() == Db(map[supplier := Supplier("S", true)], map[1 := Item(supplier, name, 10, 100, "")],
                            map[], 2, 1)
  {
    m := new Marketplace();
    var r := m.RegisterSupplier(supplier, "S");
    ghost var registered := m.State();
    Ledger.AddItemInserts(registered, supplier, name, 10, 100, "");
    r := m.AddItem(supplier, name, 10, 100, "");
  }

  /** A potion sale: list a potion, order from it, confirm one order and cancel
      another. */
  method PotionWalkthrough(supplier: UserId, customer: UserId)
    requires supplier != customer
  {
    var m := ListedItem(supplier, "Potion");
    var r := m.PlaceOrder(customer, 1, 11, "Vermilion City", "20:00");
    assert r == Rejected(InsufficientStock);
    r := m.PlaceOrder(supplier, 1, 3, "Vermilion City", "20:00");
    assert r == Rejected(SelfOrder);

    r := m.PlaceOrder(customer, 1, 3, "Vermilion City", "20:00");
    assert r == Accepted(1) && m.orders[1].totalPrice == 300 && m.inventory[1].quantity == 7;
    r := m.ConfirmOrder(supplier, 1);
    assert r == Accepted(1) && m.orders[1].status == Completed && m.inventory[1].quantity == 7;
    r := m.CustomerCancelOrder(customer, 1);
    assert r == Rejected(NotFoundOrProcessed) && m.inventory[1].quantity == 7;

    r := m.PlaceOrder(customer, 1, 3, "Vermilion City", "21:00");
    assert r == Accepted(2) && m.inventory[1].quantity == 4;
    r := m.CustomerCancelOrder(customer, 2);
    assert r == Accepted(2) && m.orders[2].status == Cancelled && m.inventory[1].quantity == 7;
  }

  /** Listing a name again with the case of some letters changed restocks the
      existing row instead of adding a second one. */
  method RestockWalkthrough(supplier: UserId, name: string, variant: string)
    requires |variant| == |name|
    requires forall i :: 0 <= i < |name| ==> LowerChar(name[i]) == LowerChar(variant[i])
  {
    Rows.SameNameIgnoresCase(name, variant);
    var m := ListedItem(supplier, name);
    Ledger.AddItemUpdatesMatch(m.State(), supplier, variant, 5, 120, "", 1);
    var r := m.AddItem(supplier, variant, 5, 120, "");
    assert r == Accepted(1) && m.inventory.Keys == {1};
    assert m.inventory[1].quantity == 15 && m.inventory[1].price == 120 && m.inventory[1].name == name;
  }
}
