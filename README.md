# Guild marketplace: order lifecycle and inventory ledger

This project models the bookkeeping core of a chat-bot marketplace for a game
guild (`main.py`). Suppliers register, list items with a quantity and a unit
price, and merge or remove their listings. Customers browse the catalogue and
place orders. Placing an order reserves stock at once. The supplier then
confirms the order (`pending` → `completed`), or the supplier or the customer
cancels it (`pending` → `cancelled`), and a cancellation gives the stock back.
The state lives in three SQLite tables: `suppliers`, `inventory` and `orders`.

Modules:

- `Rows` (rows.dfy): the three tables as maps from primary key to row, the
  next-id counters, the handler outcome (`Accepted(id)` or
  `Rejected(reason)`), and SQLite's ASCII-only `LOWER()`.
- `Ledger` (ledger.dfy): `register_supplier`, `add_item`, `update_item`,
  `merge_items` and `remove_item` as transitions of the store. Also the
  `view_inventory` and `view_catalog` queries (`quantity > 0`) and the ledger
  lemmas.
- `Lifecycle` (lifecycle.dfy): `place_order`, `confirm_order` and the two
  `cancel_order` handlers as transitions. Also the placement effects, the
  round trips and the terminal states.
- `Views` (views.dfy): the customer's and the supplier's order listings, the
  status partitions they display, and the completed-earnings sum.
- `Runs` (runs.dfy): any sequence of handler invocations. Proves that ids
  stay fresh, that orders are never lost and keep their terms, that at most
  one confirm or cancel succeeds per order, that stock stays non-negative,
  and that names stay unique per supplier.
- `Market` (market.dfy): class `Marketplace`, whose fields are the tables and
  counters. Each handler is a method that reads rows and updates the maps in
  place. Each method is proved to leave exactly the state, and return exactly
  the outcome, that the matching pure transition prescribes. Two client
  methods walk through a potion sale (refused orders, a confirmation, a
  confirmed order that can no longer be cancelled, a cancellation that
  returns the stock) and a restock under a differently-cased name, using
  only these contracts.

Every handler is all-or-nothing. A refusal leaves the store unchanged.

The model follows what the code does, including where that may be
unexpected:

- A confirm or cancel that finds nothing has one refusal in the code
  ("not found or already processed"). That covers an unknown order, the wrong
  user, a status other than `pending`, and an order whose item row or supplier
  row is gone: the handlers read the order through inner joins with
  `inventory` and `suppliers`. The model has no separate refusal for each of
  these cases.
- Quantities and prices are never validated. Negative quantities pass every
  check. The stock invariant (`Runs.RunKeepsStocked`) takes non-negative
  command arguments as a hypothesis.
- The two cancel buttons are separate handlers, and each checks only its own
  party's column (`supplier_id` or `customer_id`). `Lifecycle.Cancel` takes
  the party as a parameter.
- `merge_items` takes the price and description of the row with the highest
  id (`ORDER BY id`, last row). That is the most recently inserted row only
  while ids are handed out in increasing order.
- `register_supplier` is `INSERT OR REPLACE`. That rewrites the whole row, so
  `active` goes back to its column default (assumed `TRUE`). It does not
  merely overwrite the display name.
- The order insert does not set `status`. The order starts `pending` through
  the column default, which the confirm and cancel guards rely on.
- The lookup in `add_item` uses `fetchone()` without `ORDER BY`. The model
  takes the first row in id order, which is the order SQLite scans a table in.

## Model

| member | source | states |
|---|---|---|
| `Rows.Lower` | main.py:435 | SQL `LOWER()` keeps the length, maps each A–Z to the matching a–z (code point + 32), leaves every other character unchanged, and leaves no ASCII capital |
| `Rows.SameNameIgnoresCase` | main.py:435 | two names that differ only in the case of ASCII letters match in the case-insensitive lookup |
| `Ledger.SelectBelow` | main.py:569-574 | an inventory query returns strictly ascending ids (`ORDER BY id`), each of an existing row that satisfies the WHERE clause |
| `Ledger.SelectSpec` | main.py:569-576 | a row is in a query's result if and only if it exists and satisfies the WHERE clause |
| `Ledger.InventoryViewSpec` | main.py:623-628 | a supplier's inventory view lists exactly that supplier's rows with quantity > 0 |
| `Ledger.CatalogSpec` | main.py:677-683 | the catalogue lists exactly the rows with quantity > 0 whose supplier row exists |
| `Ledger.InventoryViewInCatalog` | main.py:677-683 | for a registered supplier, its inventory view is the catalogue restricted to its own rows |
| `Ledger.QuantitySumNonNegative` | main.py:584 | the merged total of non-negative quantities is non-negative |
| `Ledger.RegisterSpec` | main.py:405-407 | registration always succeeds; the user's row gets the new name and `active`; other suppliers, items, orders and the id counters are unchanged |
| `Ledger.AddItemRejects` | main.py:424-429 | `add_item` is refused exactly when the actor has no supplier row, and then nothing changes |
| `Ledger.AddItemUpdatesMatch` | main.py:432-464 | with a row of the actor matching case-insensitively, the lowest-id match gets quantity old + new and the new price; its description becomes the new one if non-empty, else stays; no row is added and nothing else changes |
| `Ledger.AddItemInserts` | main.py:470-475 | with no match, a new row with the given fields is created under the next id, and nothing else changes |
| `Ledger.AddItemKeepsUniqueNames` | main.py:432-475 | adding never creates a second row of one supplier with a case-insensitively equal name, and keeps ids fresh |
| `Ledger.UpdateItemSpec` | main.py:502-545 | `update_item` succeeds if and only if a field is given and the row exists and belongs to the actor; it sets exactly the given fields and changes nothing else |
| `Ledger.UpdateItemIdempotent` | main.py:539-542 | repeating an update leaves the store as after the first one |
| `Ledger.MergeItemsRejects` | main.py:569-581 | merging is refused, with no change, exactly when fewer than two rows of the actor match the name |
| `Ledger.MergeItemsEffect` | main.py:583-601 | after a merge exactly one row matches: the lowest-id match; it holds the total quantity of all matches (the total is preserved) and the price and description of the highest-id match; every other match is deleted and no row is added (the keys are the old keys minus the deleted ids); non-matching rows and the id counters are untouched |
| `Ledger.MergeItemsNeedsDuplicates` | main.py:578-581 | when names are unique per supplier, merging is always refused |
| `Ledger.RemoveItemSpec` | main.py:656-663 | removal succeeds if and only if the row exists and belongs to the actor; it deletes that row only |
| `Lifecycle.PlaceRejections` | main.py:723-743 | `place_order` refuses an item with no row or no supplier row, then a quantity above stock, then a self-order, in that order; each refusal leaves the store unchanged; it succeeds if and only if all three checks pass |
| `Lifecycle.NoSelfOrder` | main.py:741-743 | a supplier can never order from its own listing |
| `Lifecycle.PlaceEffect` | main.py:745-758 | a placed order is a fresh pending, unstamped row with the supplier copied from the item and total = price × quantity; the item loses exactly the quantity and stays ≥ 0; the order keeps the given location and delivery time, the order counter moves past the new id, and all other items and orders are unchanged |
| `Lifecycle.ConfirmSpec` | main.py:28-50 | confirm succeeds if and only if the order is visible, pending and the actor is its supplier; it sets `completed` and stamps it, and the inventory is untouched |
| `Lifecycle.CancelSpec` | main.py:105-126 | cancel succeeds if and only if the order is visible, pending and the actor is the acting party (supplier or customer); it sets `cancelled` and adds exactly the order's quantity back to its item |
| `Lifecycle.PlaceThenCancelRestores` | main.py:745-756 | placing an order and then having either party cancel it restores the inventory exactly |
| `Lifecycle.PlaceThenConfirmKeepsReservation` | main.py:44-48 | placing and then confirming leaves the item at its decremented quantity |
| `Lifecycle.TerminalRejects` | main.py:33-39 | a `completed` or `cancelled` order refuses every confirm and cancel, with no change |
| `Lifecycle.ConfirmIsFinal` | main.py:110-116 | after a confirmation, no cancel and no second confirm succeeds |
| `Lifecycle.CancelIsFinal` | main.py:192-198 | after a cancellation, no confirm and no second cancel succeeds, so stock is returned at most once |
| `Lifecycle.RemovedItemStrandsOrders` | main.py:656-657 | right after an item is removed, its orders can be neither confirmed nor cancelled, because the join finds no item row |
| `Views.ListBelow` | main.py:259-268 | an order listing holds only existing orders, with their current columns, that satisfy the WHERE clause and joins |
| `Views.ListSpec` | main.py:826-834 | an order is in a listing if and only if it exists and satisfies the listing's WHERE clause and joins |
| `Views.WithStatusSpec` | main.py:844-846 | a status bucket holds exactly the listed rows with that status |
| `Views.CustomerPartition` | main.py:278-279 | the customer's pending rows and history together are the listing, each row in exactly one part |
| `Views.SupplierPartition` | main.py:844-846 | the pending, completed and cancelled buckets together hold exactly the listed rows (as multisets, so each row is in exactly one bucket), their sizes add up to the listing's, and the history is completed plus cancelled |
| `Views.EarningsAppend` | main.py:884 | the completed-earnings sum is additive over any split of the listing |
| `Views.EarningsBounds` | main.py:884 | with non-negative totals, earnings lie between 0 and the total of all listed orders |
| `Views.CustomerPendingIsCancellable` | main.py:278-299 | the pending rows shown to a customer (each with a cancel button) are exactly the orders the customer's cancel accepts |
| `Views.ReceivedPendingIsActionable` | main.py:819-846 | for an active supplier, the pending rows shown are exactly the orders that supplier's confirm accepts, and every one of them is also accepted by that supplier's cancel |
| `Runs.ApplyKeepsValid` | main.py:748-753 | every handler keeps every row id below its table's next id, so, with ids handed out by a counter, new rows do not reuse an id |
| `Runs.RunKeepsValid` | main.py:748-753 | the same holds over any sequence of handler calls |
| `Runs.ApplyKeepsOrders` | main.py:44-48 | no handler deletes an order or changes its terms, and none touches an order that has left `pending` |
| `Runs.RunKeepsOrders` | main.py:33 | over any run, orders are never lost, their terms never change, and completed or cancelled orders stay exactly as they are |
| `Runs.AtMostOneResolution` | main.py:33-39 | over any run at most one confirm or cancel of an order succeeds, and none succeeds once it has left `pending` |
| `Runs.ApplyKeepsStocked` | main.py:737 | with non-negative arguments, no handler makes an item or order quantity negative |
| `Runs.MergeKeepsStocked` | main.py:583-601 | a merge of rows with non-negative quantities leaves every quantity non-negative, since the kept row holds their sum |
| `Runs.RunKeepsStocked` | main.py:737-756 | over any run with non-negative arguments, available stock never goes negative |
| `Runs.ApplyKeepsUniqueNames` | main.py:432-440 | no handler creates two rows of one supplier with case-insensitively equal names |
| `Runs.RunKeepsUniqueNames` | main.py:432-475 | the same holds over any run |
| `Runs.MergeNeverNeededFromEmpty` | main.py:578-581 | in a store built from empty by these handlers, `merge_items` always finds nothing to merge |
| `Market.Marketplace.RegisterSupplier` | main.py:401-408 | upserts the supplier row in place as `Ledger.Register` says |
| `Market.Marketplace.AddItem` | main.py:420-491 | updates the matching row in place, or inserts under the next id, as `Ledger.AddItem` says; ids stay fresh |
| `Market.Marketplace.UpdateItem` | main.py:502-545 | builds the SET list field by field, giving the state `Ledger.UpdateItem` prescribes |
| `Market.Marketplace.MergeItems` | main.py:564-604 | rewrites the kept row, then deletes the others, reaching the state `Ledger.MergeItems` prescribes |
| `Market.Marketplace.DeleteRows` | main.py:600-601 | the delete loop removes exactly the given ids and nothing else |
| `Market.Marketplace.RemoveItem` | main.py:652-665 | owner-checked delete, as `Ledger.RemoveItem` says |
| `Market.Marketplace.PlaceOrder` | main.py:714-758 | checks, inserts and decrements in place, with the outcome and state of `Lifecycle.Place` |
| `Market.Marketplace.ConfirmOrder` | main.py:20-50 | flips the order to `completed` in place, as `Lifecycle.Confirm` says |
| `Market.Marketplace.CancelOrder` | main.py:121-126 | the shared status flip and stock return of both cancel handlers, as `Lifecycle.Cancel` says |
| `Market.Marketplace.SupplierCancelOrder` | main.py:97-126 | the supplier's cancel button: `Lifecycle.Cancel` with the supplier as the party |
| `Market.Marketplace.CustomerCancelOrder` | main.py:179-208 | the customer's cancel button: `Lifecycle.Cancel` with the customer as the party |

## Left out

- Chat-platform I/O is not modelled: deferred responses, embeds, button views and their 7-day timeouts, `fetch_user`, direct messages and logging. Notifications happen only after the commit and cannot change the store, so the model's state is the state after the commit.
- `send_supplier_notification_with_buttons` is not modelled. It only turns platform exceptions into a message shown to the customer.
- SQLite connections and the `except`/`rollback` paths taken on arbitrary exceptions are not modelled. Each handler is all-or-nothing.
- Concurrency is not modelled. The check-then-update in confirm and cancel is not locked in the code, and the model runs commands one at a time.
- Real timestamps are not modelled. `completed_at` is a flag, and `created_at` is not kept.
- `ORDER BY created_at DESC LIMIT 10/15` and `ORDER BY item_name` are not modelled. The listings are in id order and are not cut to a page, and the display cuts `[:5]` are not modelled either: the customer's history (`completed_orders[:5]`, main.py:310) and the supplier's pending list (`pending_orders[:5]`, main.py:858).
- The `marketplace_stats`, `help_command` and `on_connect` handlers and the token start-up are not modelled.
- Display-only columns are not modelled: the joined `username` and `item_name` of the listings.
- `Lifecycle.PlaceEffect`: integers are unbounded. SQLite's 64-bit integer limit is not modelled for `price * quantity` (main.py:745), nor for `current_qty + quantita` in `add_item` (main.py:458, where there is no `try`, so an overflow leaves nothing committed), nor for the `sum` in `merge_items` (main.py:584), nor for the SQL `quantity + ?` and `quantity - ?` updates (main.py:124, 206, 756). The code behaves differently at the two kinds of site. At main.py:458, 584 and 745 the result is a Python integer, and binding one above 2^63 − 1 as a parameter raises `OverflowError`, so nothing is committed. At main.py:124, 206 and 756 the arithmetic happens inside SQLite, whose integer `+` and `-` turn an overflowing result into a REAL, and the UPDATE commits that approximation. The model's exact integer arithmetic captures neither behaviour.
- `Rows.Lower`: only ASCII folding is modelled, as SQLite's built-in `LOWER()` does.
- `add_item` and `merge_items` read descriptions with `or` (main.py:464, 586), which also covers NULL. The model has no NULL description, because no handler writes one.
- Row ids are taken to come from a counter that never hands out an id twice, as a table declared with `AUTOINCREMENT` does. The table schema is not part of this model. With a plain `INTEGER PRIMARY KEY`, SQLite gives a new row max(rowid) + 1, so after `remove_item` (main.py:656) or the delete loop of `merge_items` (main.py:600-601) removes the highest inventory id, the next `add_item` insert (main.py:472-475) takes that id again. The stranded orders of the removed row would then join with the new row (main.py:31, 108, 190), and a cancel would add their quantity to it (main.py:124, 206). `Runs.ApplyKeepsValid` and `Runs.RunKeepsValid` hold only under the counter assumption. `Lifecycle.RemovedItemStrandsOrders` speaks only of the state right after the removal.
