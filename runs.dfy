/** Any sequence of handler invocations, run one after another against the
    store, and the invariants every such run keeps. */
module Runs {
  import opened Rows
  import Ledger
  import Lifecycle

  /** One invocation of a command handler, with the acting user and its arguments. */
  datatype Command =
    | Register(user: UserId, username: string)
    | Add(actor: UserId, name: string, quantity: int, price: int, description: string)
    | Update(actor: UserId, itemId: ItemId, newQuantity: Option<int>, newPrice: Option<int>)
    | Merge(actor: UserId, name: string)
    | Remove(actor: UserId, itemId: ItemId)
    | PlaceOrder(actor: UserId, itemId: ItemId, quantity: int, location: string, deliveryTime: string)
    | ConfirmOrder(actor: UserId, orderId: OrderId)
    | CancelOrder(actor: UserId, orderId: OrderId, party: Lifecycle.Party)

  function Apply(db: Db, c: Command): Step {
    match c
    case Register(u, n) => Ledger.Register(db, u, n)
    case Add(a, n, q, p, d) => Ledger.AddItem(db, a, n, q, p, d)
    case Update(a, i, q, p) => Ledger.UpdateItem(db, a, i, q, p)
    case Merge(a, n) => Ledger.MergeItems(db, a, n)
    case Remove(a, i) => Ledger.RemoveItem(db, a, i)
    case PlaceOrder(a, i, q, l, t) => Lifecycle.Place(db, a, i, q, l, t)
    case ConfirmOrder(a, o) => Lifecycle.Confirm(db, o, a)
    case CancelOrder(a, o, p) => Lifecycle.Cancel(db, o, a, p)
  }

  /** The store after running `cmds` in order. */
  function Run(db: Db, cmds: seq<Command>): Db
    decreases |cmds|
  {
    if cmds == [] then db else Run(Apply(db, cmds[0]).db, cmds[1..])
  }

  // ---------------------------------------------------------------------------
  // Fresh ids
  // ---------------------------------------------------------------------------

  lemma ApplyKeepsValid(db: Db, c: Command)
    requires Valid(db)
    ensures Valid(Apply(db, c).db)
  {
    match c
    case Merge(a, n) => Ledger.MergeItemsEffect(db, a, n);
    case PlaceOrder(a, i, q, l, t) => Lifecycle.PlaceEffect(db, a, i, q, l, t);
    case _ =>
  }

  lemma {:induction false} RunKeepsValid(db: Db, cmds: seq<Command>)
    requires Valid(db)
    ensures Valid(Run(db, cmds))
    decreases |cmds|
  {
    if cmds != [] {
      ApplyKeepsValid(db, cmds[0]);
      RunKeepsValid(Apply(db, cmds[0]).db, cmds[1..]);
    }
  }

  // ---------------------------------------------------------------------------
  // Orders are never deleted, their terms never change, terminal states stay
  // ---------------------------------------------------------------------------

  /** The columns fixed when the order is placed. */
  predicate SameTerms(o: Order, o': Order) {
    && o'.customerId == o.customerId && o'.supplierId == o.supplierId
    && o'.itemId == o.itemId && o'.quantity == o.quantity && o'.totalPrice == o.totalPrice
    && o'.location == o.location && o'.deliveryTime == o.deliveryTime
  }

  /** Every order of `db` is still in `db'` with the same terms, and an order
      that had left `pending` is exactly as it was. */
  ghost predicate OrdersKept(db: Db, db': Db) {
    forall id :: id in db.orders ==>
      && id in db'.orders
      && SameTerms(db.orders[id], db'.orders[id])
      && (db.orders[id].status != Pending ==> db'.orders[id] == db.orders[id])
  }

  lemma ApplyKeepsOrders(db: Db, c: Command)
    requires Valid(db)
    ensures OrdersKept(db, Apply(db, c).db)
  {
    match c
    case PlaceOrder(a, i, q, l, t) => Lifecycle.PlaceEffect(db, a, i, q, l, t);
    case ConfirmOrder(a, o) => Lifecycle.ConfirmSpec(db, o, a);
    case CancelOrder(a, o, p) => Lifecycle.CancelSpec(db, o, a, p);
    case _ =>
  }

  /** Over any run, no order disappears, no order's terms change, and a
      completed or cancelled order stays exactly as it is. */
  lemma {:induction false} RunKeepsOrders(db: Db, cmds: seq<Command>)
    requires Valid(db)
    ensures OrdersKept(db, Run(db, cmds))
    decreases |cmds|
  {
    if cmds != [] {
      var next := Apply(db, cmds[0]).db;
      ApplyKeepsValid(db, cmds[0]);
      ApplyKeepsOrders(db, cmds[0]);
      RunKeepsOrders(next, cmds[1..]);
    }
  }

  /** Whether `c` is a confirm or cancel aimed at order `id`. */
  predicate Resolves(c: Command, id: OrderId) {
    (c.ConfirmOrder? || c.CancelOrder?) && c.orderId == id
  }

  /** How many confirms and cancels of order `id` succeed during a run. */
  function Resolutions(db: Db, cmds: seq<Command>, id: OrderId): nat
    decreases |cmds|
  {
    if cmds == [] then 0
    else
      var s := Apply(db, cmds[0]);
      (if Resolves(cmds[0], id) && s.out.Accepted? then 1 else 0) + Resolutions(s.db, cmds[1..], id)
  }

  /** At most one confirm or cancel ever succeeds for an order, and none does
      once it has left `pending`. */
  lemma {:induction false} AtMostOneResolution(db: Db, cmds: seq<Command>, id: OrderId)
    requires Valid(db)
    ensures Resolutions(db, cmds, id) <= 1
    ensures id in db.orders && db.orders[id].status != Pending ==> Resolutions(db, cmds, id) == 0
    decreases |cmds|
  {
    if cmds != [] {
      var c := cmds[0];
      var s := Apply(db, c);
      ApplyKeepsValid(db, c);
      ApplyKeepsOrders(db, c);
      AtMostOneResolution(s.db, cmds[1..], id);
      if Resolves(c, id) {
        if c.ConfirmOrder? {
          Lifecycle.ConfirmSpec(db, id, c.actor);
        } else {
          Lifecycle.CancelSpec(db, id, c.actor, c.party);
        }
      }
    }
  }

  // ---------------------------------------------------------------------------
  // Stock never goes negative
  // ---------------------------------------------------------------------------

  /** No item quantity and no order quantity is negative. */
  ghost predicate Stocked(db: Db) {
    && (forall id :: id in db.inventory ==> db.inventory[id].quantity >= 0)
    && (forall id :: id in db.orders ==> db.orders[id].quantity >= 0)
  }

  /** The handlers never validate their quantities; this is what a caller must
      supply for stock to stay non-negative. */
  predicate NonNegativeArgs(c: Command) {
    match c
    case Add(_, _, q, _, _) => q >= 0
    case Update(_, _, q, _) => q.Some? ==> q.value >= 0
    case PlaceOrder(_, _, q, _, _) => q >= 0
    case _ => true
  }

  /** A merge keeps quantities non-negative: the kept row holds a sum of them. */
  lemma MergeKeepsStocked(db: Db, actor: UserId, name: string)
    requires Valid(db) && Stocked(db)
    ensures Stocked(Ledger.MergeItems(db, actor, name).db)
  {
    var q := Ledger.NamedBy(actor, name);
    Ledger.QuantitySumNonNegative(db.inventory, Ledger.Select(db, q));
    Ledger.MergeItemsEffect(db, actor, name);
  }

  lemma ApplyKeepsStocked(db: Db, c: Command)
    requires Valid(db) && Stocked(db) && NonNegativeArgs(c)
    ensures Stocked(Apply(db, c).db)
  {
    match c
    case Merge(a, n) => MergeKeepsStocked(db, a, n);
    case PlaceOrder(a, i, q, l, t) => Lifecycle.PlaceEffect(db, a, i, q, l, t);
    case CancelOrder(a, o, p) => Lifecycle.CancelSpec(db, o, a, p);
    case _ =>
  }

  /** From a store without negative quantities, any run whose commands carry
      non-negative quantities keeps every quantity non-negative. */
  lemma {:induction false} RunKeepsStocked(db: Db, cmds: seq<Command>)
    requires Valid(db) && Stocked(db)
    requires forall i :: 0 <= i < |cmds| ==> NonNegativeArgs(cmds[i])
    ensures Stocked(Run(db, cmds))
    decreases |cmds|
  {
    if cmds != [] {
      ApplyKeepsValid(db, cmds[0]);
      ApplyKeepsStocked(db, cmds[0]);
      RunKeepsStocked(Apply(db, cmds[0]).db, cmds[1..]);
    }
  }

  // ---------------------------------------------------------------------------
  // Names stay unique per supplier
  // ---------------------------------------------------------------------------

  lemma ApplyKeepsUniqueNames(db: Db, c: Command)
    requires Valid(db) && Ledger.UniqueNames(db)
    ensures Ledger.UniqueNames(Apply(db, c).db)
  {
    match c
    case Add(a, n, q, p, d) => Ledger.AddItemKeepsUniqueNames(db, a, n, q, p, d);
    case Merge(a, n) => Ledger.MergeItemsNeedsDuplicates(db, a, n);
    case Update(a, i, q, p) => Ledger.UpdateItemSpec(db, a, i, q, p);
    case PlaceOrder(a, i, q, l, t) => Lifecycle.PlaceEffect(db, a, i, q, l, t);
    case CancelOrder(a, o, p) => Lifecycle.CancelSpec(db, o, a, p);
    case _ =>
  }

  /** A store built only by these handlers never holds two rows of one supplier
      whose names match case-insensitively, so `merge_items` always finds
      nothing to merge there. */
  lemma {:induction false} RunKeepsUniqueNames(db: Db, cmds: seq<Command>)
    requires Valid(db) && Ledger.UniqueNames(db)
    ensures Ledger.UniqueNames(Run(db, cmds))
    decreases |cmds|
  {
    if cmds != [] {
      ApplyKeepsValid(db, cmds[0]);
      ApplyKeepsUniqueNames(db, cmds[0]);
      RunKeepsUniqueNames(Apply(db, cmds[0]).db, cmds[1..]);
    }
  }

  lemma MergeNeverNeededFromEmpty(cmds: seq<Command>, actor: UserId, name: string)
    ensures var db := Run(Empty, cmds);
      Ledger.MergeItems(db, actor, name) == Reject(db, NoDuplicates)
  {
    RunKeepsValid(Empty, cmds);
    RunKeepsUniqueNames(Empty, cmds);
    Ledger.MergeItemsNeedsDuplicates(Run(Empty, cmds), actor, name);
  }
}
