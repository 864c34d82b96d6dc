/** The order listings of main.py: the customer's orders (`view_orders_interactive`)
    and the supplier's received orders (`view_received_orders`), the status
    partitions they show, and the completed-earnings total. */
module Views {
  import opened Rows
  import Lifecycle

  /** A fetched order row: its id and its columns. */
  datatype Row = Row(id: OrderId, order: Order)

  /** The WHERE clauses (and inner joins) of the two order listings. */
  datatype OrderQuery =
    | PlacedBy(customer: UserId)  // customer_id = ?, joined with inventory and suppliers
    | ReceivedBy(supplier: UserId) // supplier_id = ?, joined with inventory only

  predicate Listed(db: Db, q: OrderQuery, o: Order) {
    match q
    case PlacedBy(c) => o.customerId == c && o.itemId in db.inventory && o.supplierId in db.suppliers
    case ReceivedBy(s) => o.supplierId == s && o.itemId in db.inventory
  }

  /** The rows below `bound` that `q` lists, in ascending id order. */
  function ListBelow(db: Db, q: OrderQuery, bound: nat): (rows: seq<Row>)
    ensures forall i :: 0 <= i < |rows| ==>
      && rows[i].id < bound && rows[i].id in db.orders
      && rows[i].order == db.orders[rows[i].id] && Listed(db, q, rows[i].order)
  {
    if bound == 0 then []
    else
      var prefix := ListBelow(db, q, bound - 1);
      var id := bound - 1;
      if id in db.orders && Listed(db, q, db.orders[id]) then prefix + [Row(id, db.orders[id])] else prefix
  }

  function List(db: Db, q: OrderQuery): seq<Row> {
    ListBelow(db, q, db.nextOrderId)
  }

  lemma {:induction false} ListBelowComplete(db: Db, q: OrderQuery, bound: nat, id: OrderId)
    requires id < bound && id in db.orders && Listed(db, q, db.orders[id])
    ensures Row(id, db.orders[id]) in ListBelow(db, q, bound)
  {
    if id < bound - 1 {
      ListBelowComplete(db, q, bound - 1, id);
    }
  }

  /** A listing holds exactly the orders its WHERE clause and joins admit, each
      with its current columns. */
  lemma ListSpec(db: Db, q: OrderQuery, r: Row)
    requires Valid(db)
    ensures r in List(db, q) <==> r.id in db.orders && r.order == db.orders[r.id] && Listed(db, q, r.order)
  {
    if r.id in db.orders && r.order == db.orders[r.id] && Listed(db, q, r.order) {
      ListBelowComplete(db, q, db.nextOrderId, r.id);
    }
  }

  /** The customer's listing (`view_orders_interactive`). */
  function CustomerOrders(db: Db, customer: UserId): seq<Row> {
    List(db, PlacedBy(customer))
  }

  /** The supplier's listing (`view_received_orders`), refused unless the actor
      has an active supplier row. */
  function ReceivedOrders(db: Db, actor: UserId): Option<seq<Row>> {
    if actor in db.suppliers && db.suppliers[actor].active then Some(List(db, ReceivedBy(actor))) else None
  }

  /** `[order for order in orders if order[6] == status]`. */
  function WithStatus(rows: seq<Row>, status: Status): seq<Row> {
    if rows == [] then []
    else (if rows[0].order.status == status then [rows[0]] else []) + WithStatus(rows[1..], status)
  }

  /** `[order for order in orders if order[6] != 'pending']`: the customer's history. */
  function History(rows: seq<Row>): seq<Row> {
    if rows == [] then []
    else (if rows[0].order.status != Pending then [rows[0]] else []) + History(rows[1..])
  }

  /** `sum(order[3] for order in orders)`. */
  function TotalOf(rows: seq<Row>): int {
    if rows == [] then 0 else rows[0].order.totalPrice + TotalOf(rows[1..])
  }

  /** The supplier's earnings: the total price of its completed orders. */
  function Earnings(rows: seq<Row>): int {
    TotalOf(WithStatus(rows, Completed))
  }

  lemma {:induction false} WithStatusSpec(rows: seq<Row>, status: Status, r: Row)
    ensures r in WithStatus(rows, status) <==> r in rows && r.order.status == status
  {
    if rows != [] {
      WithStatusSpec(rows[1..], status, r);
      assert rows == [rows[0]] + rows[1..];
    }
  }

  /** The customer's listing splits into the pending part and the history, and
      every row lands in exactly one of them. */
  lemma {:induction false} CustomerPartition(rows: seq<Row>)
    ensures multiset(WithStatus(rows, Pending)) + multiset(History(rows)) == multiset(rows)
  {
    if rows != [] {
      CustomerPartition(rows[1..]);
      assert rows == [rows[0]] + rows[1..];
    }
  }

  /** The supplier's listing splits into pending, completed and cancelled, and
      the customer's history is exactly the completed and cancelled rows. */
  lemma {:induction false} SupplierPartition(rows: seq<Row>)
    ensures multiset(History(rows)) == multiset(WithStatus(rows, Completed)) + multiset(WithStatus(rows, Cancelled))
    ensures multiset(WithStatus(rows, Pending)) + multiset(WithStatus(rows, Completed))
            + multiset(WithStatus(rows, Cancelled)) == multiset(rows)
    ensures |WithStatus(rows, Pending)| + |WithStatus(rows, Completed)| + |WithStatus(rows, Cancelled)| == |rows|
  {
    if rows != [] {
      SupplierPartition(rows[1..]);
    }
    CustomerPartition(rows);
  }

  lemma {:induction false} WithStatusAppend(a: seq<Row>, b: seq<Row>, status: Status)
    ensures WithStatus(a + b, status) == WithStatus(a, status) + WithStatus(b, status)
  {
    if a == [] {
      assert a + b == b;
    } else {
      var head := if a[0].order.status == status then [a[0]] else [];
      calc {
        WithStatus(a + b, status);
        == { assert (a + b)[0] == a[0] && (a + b)[1..] == a[1..] + b; }
        head + WithStatus(a[1..] + b, status);
        == { WithStatusAppend(a[1..], b, status); }
        head + (WithStatus(a[1..], status) + WithStatus(b, status));
        ==
        (head + WithStatus(a[1..], status)) + WithStatus(b, status);
      }
    }
  }

  lemma {:induction false} TotalOfAppend(a: seq<Row>, b: seq<Row>)
    ensures TotalOf(a + b) == TotalOf(a) + TotalOf(b)
  {
    if a == [] {
      assert a + b == b;
    } else {
      TotalOfAppend(a[1..], b);
      assert (a + b)[0] == a[0] && (a + b)[1..] == a[1..] + b;
    }
  }

  /** Earnings add up over any split of the listing. */
  lemma EarningsAppend(a: seq<Row>, b: seq<Row>)
    ensures Earnings(a + b) == Earnings(a) + Earnings(b)
  {
    WithStatusAppend(a, b, Completed);
    TotalOfAppend(WithStatus(a, Completed), WithStatus(b, Completed));
  }

  /** With non-negative totals the earnings lie between zero and the total of
      every listed order. */
  lemma {:induction false} EarningsBounds(rows: seq<Row>)
    requires forall i :: 0 <= i < |rows| ==> rows[i].order.totalPrice >= 0
    ensures 0 <= Earnings(rows) <= TotalOf(rows)
  {
    if rows != [] {
      EarningsBounds(rows[1..]);
      var rest := WithStatus(rows[1..], Completed);
      if rows[0].order.status == Completed {
        assert WithStatus(rows, Completed) == [rows[0]] + rest;
        assert ([rows[0]] + rest)[1..] == rest;
      } else {
        assert WithStatus(rows, Completed) == rest;
      }
    }
  }

  /** The pending part of a customer's listing is exactly the set of orders the
      customer's cancel button can act on. */
  lemma CustomerPendingIsCancellable(db: Db, customer: UserId, id: OrderId)
    requires Valid(db)
    ensures (id in db.orders && Row(id, db.orders[id]) in WithStatus(CustomerOrders(db, customer), Pending))
            <==> Lifecycle.Actionable(db, id, customer, Lifecycle.ByCustomer)
  {
    if id in db.orders {
      var r := Row(id, db.orders[id]);
      WithStatusSpec(CustomerOrders(db, customer), Pending, r);
      ListSpec(db, PlacedBy(customer), r);
    }
  }

  /** The pending part of an active supplier's listing is exactly the set of
      orders that supplier can confirm, and each of them it can also cancel. */
  lemma ReceivedPendingIsActionable(db: Db, supplier: UserId, id: OrderId)
    requires Valid(db)
    requires ReceivedOrders(db, supplier).Some?
    ensures (id in db.orders && Row(id, db.orders[id]) in WithStatus(ReceivedOrders(db, supplier).value, Pending))
            <==> Lifecycle.Confirm(db, id, supplier).out == Accepted(id)
    ensures Lifecycle.Confirm(db, id, supplier).out == Accepted(id)
            ==> Lifecycle.Cancel(db, id, supplier, Lifecycle.BySupplier).out == Accepted(id)
  {
    if id in db.orders {
      var r := Row(id, db.orders[id]);
      WithStatusSpec(ReceivedOrders(db, supplier).value, Pending, r);
      ListSpec(db, ReceivedBy(supplier), r);
    }
  }
}
