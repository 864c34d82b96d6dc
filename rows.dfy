/** The three tables of the marketplace store (suppliers, inventory, orders)
    as maps from primary key to row, with the next-id counters that stand for
    SQLite's row ids, and the outcome every command handler reports. */
module Rows {

  /** A chat-platform user identity: supplier and customer ids alike. */
  type UserId = int
  type ItemId = nat
  type OrderId = nat

  datatype Option<T> = None | Some(value: T)

  /** The order statuses. `Pending` is the schema default the order insert
      relies on; the other two are terminal. */
  datatype Status = Pending | Completed | Cancelled

  /** A row of `suppliers`, keyed by `user_id`. */
  datatype Supplier = Supplier(username: string, active: bool)

  /** A row of `inventory`, keyed by `id`. */
  datatype Item = Item(
    supplierId: UserId,
    name: string,
    quantity: int,
    price: int,
    description: string)

  /** A row of `orders`, keyed by `id`. `completedAt` records only whether the
      completion timestamp has been stamped. */
  datatype Order = Order(
    customerId: UserId,
    supplierId: UserId,
    itemId: ItemId,
    quantity: int,
    totalPrice: int,
    location: string,
    deliveryTime: string,
    status: Status,
    completedAt: bool)

  /** The whole store. New rows take the next id of their table. */
  datatype Db = Db(
    suppliers: map<UserId, Supplier>,
    inventory: map<ItemId, Item>,
    orders: map<OrderId, Order>,
    nextItemId: nat,
    nextOrderId: nat)

  /** Every existing id lies below its table's counter, so the next id is fresh. */
  ghost predicate Valid(db: Db) {
    && (forall id :: id in db.inventory ==> id < db.nextItemId)
    && (forall id :: id in db.orders ==> id < db.nextOrderId)
  }

  /** The empty store; SQLite row ids start at 1. */
  const Empty: Db := Db(map[], map[], map[], 1, 1)

  /** Why a handler refused a command; each leaves the store unchanged. */
  datatype Reason =
    | NotRegistered       // add_item by a user without a supplier row
    | NothingToUpdate     // update_item with neither quantity nor price
    | NotFoundOrNotOwner  // update_item / remove_item: no such row of this supplier
    | NoDuplicates        // merge_items with at most one matching row
    | ItemNotFound        // place_order: no item row joined with its supplier row
    | InsufficientStock   // place_order: more than the available quantity
    | SelfOrder           // place_order: the buyer is the item's supplier
    | NotFoundOrProcessed // confirm / cancel: no pending order of this user

  /** The result of a handler: the id of the row it created or changed, or a refusal. */
  datatype Outcome = Accepted(id: int) | Rejected(reason: Reason)

  /** The store after a handler ran, and what the handler reported. */
  datatype Step = Step(db: Db, out: Outcome)

  function Reject(db: Db, reason: Reason): Step {
    Step(db, Rejected(reason))
  }

  /** Ids in strictly ascending order, as `ORDER BY id` returns them. */
  predicate Increasing(ids: seq<nat>) {
    forall i, j :: 0 <= i < j < |ids| ==> ids[i] < ids[j]
  }

  /** An ascending id list whose only element is `k` is the list `[k]`. */
  lemma OnlyElement(ids: seq<nat>, k: nat)
    ensures Increasing(ids) && k in ids && (forall i :: 0 <= i < |ids| ==> ids[i] == k) ==> ids == [k]
  {
    if |ids| > 1 {
      assert Increasing(ids) ==> ids[0] < ids[1];
    }
  }

  /** SQLite's built-in LOWER(): folds the ASCII letters A-Z only. */
  function LowerChar(c: char): char {
    if 'A' <= c <= 'Z' then (c as int + 32) as char else c
  }

  function Lower(s: string): (r: string)
    ensures |r| == |s|
    ensures forall i :: 0 <= i < |r| ==> !('A' <= r[i] <= 'Z')
    ensures forall i :: 0 <= i < |s| && !('A' <= s[i] <= 'Z') ==> r[i] == s[i]
    ensures forall i :: 0 <= i < |s| && 'A' <= s[i] <= 'Z' ==> r[i] as int == s[i] as int + 32
  {
    if s == [] then [] else [LowerChar(s[0])] + Lower(s[1..])
  }

  /** `LOWER(a) = LOWER(b)`: the case-insensitive name match of the inventory queries. */
  predicate SameName(a: string, b: string) {
    Lower(a) == Lower(b)
  }

  /** Names differing only in the case of ASCII letters match. */
  lemma {:induction false} SameNameIgnoresCase(a: string, b: string)
    requires |a| == |b|
    requires forall i :: 0 <= i < |a| ==> LowerChar(a[i]) == LowerChar(b[i])
    ensures SameName(a, b)
  {
    if a != [] {
      SameNameIgnoresCase(a[1..], b[1..]);
    }
  }
}
