/** The order lifecycle of main.py: `place_order` creates a pending order and
    reserves stock; the supplier's buttons confirm or cancel it, the customer's
    button cancels it; a cancellation gives the stock back. */
module Lifecycle {
  import opened Rows
  import Ledger

  /** Whose button acts: the supplier's view (confirm, cancel) or the customer's (cancel). */
  datatype Party = BySupplier | ByCustomer

  /** The column the handler compares with the acting user. */
  function PartyId(o: Order, p: Party): UserId {
    match p
    case BySupplier => o.supplierId
    case ByCustomer => o.customerId
  }

  /** The lookup of `place_order`: the item row joined with its supplier row. */
  predicate Orderable(db: Db, itemId: ItemId) {
    itemId in db.inventory && db.inventory[itemId].supplierId in db.suppliers
  }

  /** The lookup of the confirm and cancel handlers: the order joined with its
      item row and its supplier row, owned by the acting party, still pending. */
  predicate Actionable(db: Db, id: OrderId, actor: UserId, p: Party) {
    && id in db.orders
    && db.orders[id].itemId in db.inventory
    && db.orders[id].supplierId in db.suppliers
    && PartyId(db.orders[id], p) == actor
    && db.orders[id].status == Pending
  }

  /** `place_order`: the checks in the order main.py makes them (item, stock, buyer),
      then the pending order and the stock decrement in one commit. */
  function Place(db: Db, customer: UserId, itemId: ItemId, quantity: int,
                 location: string, deliveryTime: string): Step
  {
    if !Orderable(db, itemId) then Reject(db, ItemNotFound)
    else
      var it := db.inventory[itemId];
      if quantity > it.quantity then Reject(db, InsufficientStock)
      else if customer == it.supplierId then Reject(db, SelfOrder)
      else
        var id := db.nextOrderId;
        var o := Order(customer, it.supplierId, itemId, quantity, it.price * quantity,
                       location, deliveryTime, Pending, false);
        Step(db.(orders := db.orders[id := o],
                 inventory := db.inventory[itemId := it.(quantity := it.quantity - quantity)],
                 nextOrderId := id + 1),
             Accepted(id))
  }

  /** `SupplierOrderView.confirm_order`: pending to completed, stamped, no stock change. */
  function Confirm(db: Db, id: OrderId, actor: UserId): Step {
    if !Actionable(db, id, actor, BySupplier) then Reject(db, NotFoundOrProcessed)
    else
      var o := db.orders[id];
      Step(db.(orders := db.orders[id := o.(status := Completed, completedAt := true)]), Accepted(id))
  }

  /** `SupplierOrderView.cancel_order` (party `BySupplier`) and
      `CustomerOrderView.cancel_order` (party `ByCustomer`): pending to cancelled,
      and the order's quantity goes back to its item. */
  function Cancel(db: Db, id: OrderId, actor: UserId, p: Party): Step {
    if !Actionable(db, id, actor, p) then Reject(db, NotFoundOrProcessed)
    else
      var o := db.orders[id];
      var it := db.inventory[o.itemId];
      Step(db.(orders := db.orders[id := o.(status := Cancelled)],
               inventory := db.inventory[o.itemId := it.(quantity := it.quantity + o.quantity)]),
           Accepted(id))
  }

  // ---------------------------------------------------------------------------
  // place_order
  // ---------------------------------------------------------------------------

  /** The three refusals of `place_order`, each chosen exactly when its check is
      the first to fail, and none of them touches the store. */
  lemma PlaceRejections(db: Db, customer: UserId, itemId: ItemId, quantity: int, location: string, deliveryTime: string)
    ensures var s := Place(db, customer, itemId, quantity, location, deliveryTime);
      && (s.out.Rejected? ==> s.db == db)
      && (s.out == Rejected(ItemNotFound) <==> !Orderable(db, itemId))
      && (s.out == Rejected(InsufficientStock) <==>
            Orderable(db, itemId) && quantity > db.inventory[itemId].quantity)
      && (s.out == Rejected(SelfOrder) <==>
            Orderable(db, itemId) && quantity <= db.inventory[itemId].quantity &&
            customer == db.inventory[itemId].supplierId)
      && (s.out.Accepted? <==>
            Orderable(db, itemId) && quantity <= db.inventory[itemId].quantity &&
            customer != db.inventory[itemId].supplierId)
  {
  }

  /** A supplier can never buy from its own listing. */
  lemma NoSelfOrder(db: Db, customer: UserId, itemId: ItemId, quantity: int, location: string, deliveryTime: string)
    requires itemId in db.inventory && db.inventory[itemId].supplierId == customer
    ensures Place(db, customer, itemId, quantity, location, deliveryTime).out.Rejected?
    ensures Place(db, customer, itemId, quantity, location, deliveryTime).db == db
  {
  }

  /** An accepted order is a fresh pending row priced at placement time, and the
      item loses exactly the ordered quantity; nothing else changes. */
  lemma PlaceEffect(db: Db, customer: UserId, itemId: ItemId, quantity: int, location: string, deliveryTime: string)
    requires Valid(db)
    ensures var s := Place(db, customer, itemId, quantity, location, deliveryTime);
      s.out.Accepted? ==>
        && var id: OrderId := s.out.id;
        && var it := db.inventory[itemId];
        && id == db.nextOrderId && id !in db.orders && s.db.nextOrderId == id + 1
        && Valid(s.db)
        && s.db.orders.Keys == db.orders.Keys + {id}
        && (forall k :: k in db.orders ==> s.db.orders[k] == db.orders[k])
        && s.db.orders[id].customerId == customer
        && s.db.orders[id].supplierId == it.supplierId
        && s.db.orders[id].itemId == itemId
        && s.db.orders[id].quantity == quantity
        && s.db.orders[id].totalPrice == it.price * quantity
        && s.db.orders[id].location == location && s.db.orders[id].deliveryTime == deliveryTime
        && s.db.orders[id].status == Pending && !s.db.orders[id].completedAt
        && s.db.inventory.Keys == db.inventory.Keys
        && s.db.inventory[itemId] == it.(quantity := it.quantity - quantity)
        && s.db.inventory[itemId].quantity >= 0
        && (quantity >= 0 ==> s.db.inventory[itemId].quantity <= it.quantity)
        && (forall k :: k in db.inventory && k != itemId ==> s.db.inventory[k] == db.inventory[k])
        && s.db.suppliers == db.suppliers && s.db.nextItemId == db.nextItemId
  {
  }

  // ---------------------------------------------------------------------------
  // confirm_order and cancel_order
  // ---------------------------------------------------------------------------

  /** Confirmation succeeds exactly for a visible pending order of the acting
      supplier; it completes and stamps the order and leaves the inventory alone. */
  lemma ConfirmSpec(db: Db, id: OrderId, actor: UserId)
    ensures var s := Confirm(db, id, actor);
      && (s.out.Accepted? <==> Actionable(db, id, actor, BySupplier))
      && (s.out.Rejected? ==> s.db == db)
      && (s.out.Accepted? ==>
            && s.out.id == id
            && s.db.orders.Keys == db.orders.Keys
            && s.db.orders[id].status == Completed && s.db.orders[id].completedAt
            && s.db.orders[id] == db.orders[id].(status := Completed, completedAt := true)
            && (forall k :: k in db.orders && k != id ==> s.db.orders[k] == db.orders[k])
            && s.db.inventory == db.inventory && s.db.suppliers == db.suppliers
            && s.db.nextItemId == db.nextItemId && s.db.nextOrderId == db.nextOrderId)
  {
  }

  /** Cancellation succeeds exactly for a visible pending order of the acting
      party; it cancels the order and returns exactly its quantity to its item. */
  lemma CancelSpec(db: Db, id: OrderId, actor: UserId, p: Party)
    ensures var s := Cancel(db, id, actor, p);
      && (s.out.Accepted? <==> Actionable(db, id, actor, p))
      && (s.out.Rejected? ==> s.db == db)
      && (s.out.Accepted? ==>
            && var o := db.orders[id];
            && s.out.id == id
            && s.db.orders.Keys == db.orders.Keys
            && s.db.orders[id] == o.(status := Cancelled)
            && (forall k :: k in db.orders && k != id ==> s.db.orders[k] == db.orders[k])
            && s.db.inventory.Keys == db.inventory.Keys
            && s.db.inventory[o.itemId].quantity == db.inventory[o.itemId].quantity + o.quantity
            && s.db.inventory[o.itemId] == db.inventory[o.itemId].(quantity := s.db.inventory[o.itemId].quantity)
            && (forall k :: k in db.inventory && k != o.itemId ==> s.db.inventory[k] == db.inventory[k])
            && s.db.suppliers == db.suppliers
            && s.db.nextItemId == db.nextItemId && s.db.nextOrderId == db.nextOrderId)
  {
  }

  // ---------------------------------------------------------------------------
  // Round trips and the terminal states
  // ---------------------------------------------------------------------------

  /** Placing an order and having either party cancel it restores the inventory
      exactly as it was before the order. */
  lemma PlaceThenCancelRestores(db: Db, customer: UserId, itemId: ItemId, quantity: int,
                                location: string, deliveryTime: string, p: Party)
    requires Valid(db)
    requires Place(db, customer, itemId, quantity, location, deliveryTime).out.Accepted?
    ensures var placed := Place(db, customer, itemId, quantity, location, deliveryTime);
      var actor := if p == ByCustomer then customer else db.inventory[itemId].supplierId;
      var cancelled := Cancel(placed.db, placed.out.id, actor, p);
      && cancelled.out == Accepted(placed.out.id)
      && cancelled.db.inventory == db.inventory
      && cancelled.db.orders[placed.out.id].status == Cancelled
  {
    var placed := Place(db, customer, itemId, quantity, location, deliveryTime);
    PlaceEffect(db, customer, itemId, quantity, location, deliveryTime);
    var actor := if p == ByCustomer then customer else db.inventory[itemId].supplierId;
    var cancelled := Cancel(placed.db, placed.out.id, actor, p);
    assert Actionable(placed.db, placed.out.id, actor, p);
    CancelSpec(placed.db, placed.out.id, actor, p);
    assert cancelled.db.inventory[itemId] == db.inventory[itemId];
  }

  /** Placing an order and having the supplier confirm it leaves the stock at its
      decremented value. */
  lemma PlaceThenConfirmKeepsReservation(db: Db, customer: UserId, itemId: ItemId, quantity: int,
                                         location: string, deliveryTime: string)
    requires Valid(db)
    requires Place(db, customer, itemId, quantity, location, deliveryTime).out.Accepted?
    ensures var placed := Place(db, customer, itemId, quantity, location, deliveryTime);
      var confirmed := Confirm(placed.db, placed.out.id, db.inventory[itemId].supplierId);
      && confirmed.out == Accepted(placed.out.id)
      && confirmed.db.inventory[itemId].quantity == db.inventory[itemId].quantity - quantity
      && confirmed.db.orders[placed.out.id].status == Completed
  {
    PlaceEffect(db, customer, itemId, quantity, location, deliveryTime);
  }

  /** `completed` and `cancelled` are terminal: every later confirm or cancel of
      the order is refused and changes nothing. */
  lemma TerminalRejects(db: Db, id: OrderId, actor: UserId, p: Party)
    requires id in db.orders && db.orders[id].status != Pending
    ensures Confirm(db, id, actor) == Reject(db, NotFoundOrProcessed)
    ensures Cancel(db, id, actor, p) == Reject(db, NotFoundOrProcessed)
  {
  }

  /** After a confirmation no cancellation and no second confirmation succeeds. */
  lemma ConfirmIsFinal(db: Db, id: OrderId, supplier: UserId, actor: UserId, p: Party)
    requires Confirm(db, id, supplier).out.Accepted?
    ensures var confirmed := Confirm(db, id, supplier).db;
      && Cancel(confirmed, id, actor, p).out.Rejected?
      && Confirm(confirmed, id, actor).out.Rejected?
  {
    ConfirmSpec(db, id, supplier);
    TerminalRejects(Confirm(db, id, supplier).db, id, actor, p);
  }

  /** After a cancellation neither a confirmation nor a second cancellation
      succeeds, so the stock is returned at most once. */
  lemma CancelIsFinal(db: Db, id: OrderId, canceller: UserId, q: Party, actor: UserId, p: Party)
    requires Cancel(db, id, canceller, q).out.Accepted?
    ensures var cancelled := Cancel(db, id, canceller, q).db;
      && Cancel(cancelled, id, actor, p) == Reject(cancelled, NotFoundOrProcessed)
      && Confirm(cancelled, id, actor) == Reject(cancelled, NotFoundOrProcessed)
  {
    CancelSpec(db, id, canceller, q);
    TerminalRejects(Cancel(db, id, canceller, q).db, id, actor, p);
  }

  /** Removing an item hides its orders from the confirm and cancel lookups, so
      right after the removal its pending orders can be neither confirmed nor
      cancelled, and their stock is not returned. */
  lemma RemovedItemStrandsOrders(db: Db, supplier: UserId, itemId: ItemId, id: OrderId, actor: UserId, p: Party)
    requires Ledger.RemoveItem(db, supplier, itemId).out.Accepted?
    requires id in db.orders && db.orders[id].itemId == itemId
    ensures var removed := Ledger.RemoveItem(db, supplier, itemId).db;
      && Confirm(removed, id, actor) == Reject(removed, NotFoundOrProcessed)
      && Cancel(removed, id, actor, p) == Reject(removed, NotFoundOrProcessed)
  {
  }
}
