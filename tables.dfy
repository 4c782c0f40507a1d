/** The database the order engine works on, as in-memory tables, with the
    constraints the schema declares (unique keys, foreign keys, one payment
    per order) and the bookkeeping invariants the engine keeps (totals,
    payment amount, audit trail). */
module Tables {
  import opened Common
  import opened Models

  /** Customer.email is unique. */
  predicate UniqueEmails(cs: seq<Customer>)
  {
    forall i, j :: 0 <= i < j < |cs| ==> cs[i].email != cs[j].email
  }

  predicate HasCustomer(cs: seq<Customer>, email: string)
  {
    exists i :: 0 <= i < |cs| && cs[i].email == email
  }

  /** Menu item primary keys are unique. */
  predicate UniqueMenuIds(ms: seq<MenuItem>)
  {
    forall i, j :: 0 <= i < j < |ms| ==> ms[i].id != ms[j].id
  }

  predicate HasMenuItem(ms: seq<MenuItem>, id: nat)
  {
    exists i :: 0 <= i < |ms| && ms[i].id == id
  }

  /** unique_together (order, menu_item) over the whole line table. */
  predicate UniqueOrderLines(items: seq<OrderItem>)
  {
    forall i, j :: 0 <= i < j < |items| ==>
      items[i].order != items[j].order || items[i].menuItem != items[j].menuItem
  }

  /** The audit trail of one order: it opens with the PENDING -> PENDING
      creation event, every later event starts where the previous one ended
      and records a real change, and the last one ends in the current status. */
  predicate AuditTrail(es: seq<StatusEvent>, current: Status)
  {
    && |es| > 0
    && es[0].fromStatus == Pending && es[0].toStatus == Pending
    && (forall k :: 1 <= k < |es| ==> es[k].fromStatus == es[k - 1].toStatus)
    && (forall k :: 1 <= k < |es| ==> es[k].fromStatus != es[k].toStatus)
    && es[|es| - 1].toStatus == current
  }

  /** A real change from the current status extends a trail into a trail
      ending in the new status. */
  lemma AuditTrailExtend(es: seq<StatusEvent>, current: Status, e: StatusEvent)
    requires AuditTrail(es, current)
    requires e.fromStatus == current && e.toStatus != current
    ensures AuditTrail(es + [e], e.toStatus)
  {
    var es' := es + [e];
    forall k | 1 <= k < |es'| ensures es'[k].fromStatus == es'[k - 1].toStatus && es'[k].fromStatus != es'[k].toStatus {
      if k < |es| {
        assert es'[k] == es[k] && es'[k - 1] == es[k - 1];
      }
    }
  }

  /** Events are appended in strictly increasing time. */
  predicate StrictlyIncreasingAt(es: seq<StatusEvent>)
  {
    forall j, k :: 0 <= j < k < |es| ==> es[j].at < es[k].at
  }

  /** An event stamped with the current time, for a known order, appended
      to a log of earlier events of known orders keeps the log in time order. */
  lemma AppendEventInOrder(events: seq<StatusEvent>, e: StatusEvent, now: nat, keys: set<string>)
    requires StrictlyIncreasingAt(events)
    requires forall k :: 0 <= k < |events| ==> events[k].order in keys && events[k].at < now
    requires e.order in keys && e.at == now
    ensures StrictlyIncreasingAt(events + [e])
    ensures forall k :: 0 <= k < |events + [e]| ==> (events + [e])[k].order in keys && (events + [e])[k].at < now + 1
  {
    var events' := events + [e];
    forall j, k | 0 <= j < k < |events'| ensures events'[j].at < events'[k].at {
      if k == |events| {
        assert events'[j] == events[j];
      } else {
        assert events'[j] == events[j] && events'[k] == events[k];
      }
    }
    forall k | 0 <= k < |events'| ensures events'[k].order in keys && events'[k].at < now + 1 {
      if k < |events| {
        assert events'[k] == events[k];
      }
    }
  }

  ghost predicate CustomersOk(customers: seq<Customer>, clock: nat)
  {
    && UniqueEmails(customers)
    && forall i :: 0 <= i < |customers| ==> customers[i].updatedAt < clock
  }

  ghost predicate OrdersOk(customers: seq<Customer>, orders: map<string, OrderRecord>)
  {
    forall n :: n in orders ==> HasCustomer(customers, orders[n].customer)
  }

  ghost predicate LinesOk(menuItems: seq<MenuItem>, orders: map<string, OrderRecord>, items: seq<OrderItem>)
  {
    && UniqueOrderLines(items)
    && forall i :: 0 <= i < |items| ==>
         items[i].order in orders && ItemWithinBounds(items[i]) && HasMenuItem(menuItems, items[i].menuItem)
  }

  ghost predicate TotalsOk(orders: map<string, OrderRecord>, items: seq<OrderItem>)
  {
    forall n :: n in orders ==> TotalsHold(ItemsOf(items, n), orders[n])
  }

  ghost predicate PaymentsOk(orders: map<string, OrderRecord>, payments: map<string, Payment>)
  {
    && payments.Keys == orders.Keys
    && forall n :: n in payments ==> payments[n].order == n && payments[n].amountCents == orders[n].totalCents
  }

  /** Every order has its audit trail, ending in its current status. */
  ghost predicate TrailsOk(orders: map<string, OrderRecord>, events: seq<StatusEvent>)
  {
    forall n :: n in orders ==> AuditTrail(EventsOf(events, n), orders[n].status)
  }

  ghost predicate EventsOk(orders: map<string, OrderRecord>, events: seq<StatusEvent>, clock: nat)
  {
    && StrictlyIncreasingAt(events)
    && (forall k :: 0 <= k < |events| ==> events[k].order in orders && events[k].at < clock)
    && TrailsOk(orders, events)
  }

  lemma EventsOfAppend(es: seq<StatusEvent>, e: StatusEvent, n: string)
    ensures EventsOf(es + [e], n) == EventsOf(es, n) + (if e.order == n then [e] else [])
  {
    assert (es + [e])[..|es|] == es;
  }

  lemma EventsOfAbsent(es: seq<StatusEvent>, n: string)
    requires forall k :: 0 <= k < |es| ==> es[k].order != n
    ensures EventsOf(es, n) == []
  {
    FilterNone(es, (e: StatusEvent) => e.order == n);
  }

  lemma ItemsOfAbsent(items: seq<OrderItem>, n: string)
    requires forall k :: 0 <= k < |items| ==> items[k].order != n
    ensures ItemsOf(items, n) == []
  {
    FilterNone(items, (i: OrderItem) => i.order == n);
  }

  lemma ItemsOfAll(items: seq<OrderItem>, n: string)
    requires forall k :: 0 <= k < |items| ==> items[k].order == n
    ensures ItemsOf(items, n) == items
  {
    FilterAll(items, (i: OrderItem) => i.order == n);
  }

  /** All the constraints and invariants of the tables, over their values. */
  ghost predicate Consistent(
    customers: seq<Customer>, menuItems: seq<MenuItem>, orders: map<string, OrderRecord>,
    orderItems: seq<OrderItem>, payments: map<string, Payment>, events: seq<StatusEvent>, clock: nat)
  {
    && CustomersOk(customers, clock)
    && UniqueMenuIds(menuItems)
    && OrdersOk(customers, orders)
    && LinesOk(menuItems, orders, orderItems)
    && TotalsOk(orders, orderItems)
    && PaymentsOk(orders, payments)
    && EventsOk(orders, events, clock)
  }

  /** The tables. Only the order engine writes `customers`, `orders`,
      `orderItems`, `payments` and `events`; the catalog is read-only here.
      `clock` is the logical time: each write that stamps a time uses it and
      then advances it. */
  class Store {
    var customers: seq<Customer>
    var categories: seq<Category>
    var menuItems: seq<MenuItem>
    var orders: map<string, OrderRecord>
    var orderItems: seq<OrderItem>
    var payments: map<string, Payment>
    var events: seq<StatusEvent>
    var clock: nat

    ghost predicate Valid()
      reads this
    {
      Consistent(customers, menuItems, orders, orderItems, payments, events, clock)
    }

    /** A database holding a catalog and no customers or orders yet. */
    constructor (categories: seq<Category>, menuItems: seq<MenuItem>)
      requires UniqueMenuIds(menuItems)
      ensures Valid()
      ensures this.categories == categories && this.menuItems == menuItems
      ensures customers == [] && orders == map[] && orderItems == [] && payments == map[] && events == []
    {
      this.customers := [];
      this.categories := categories;
      this.menuItems := menuItems;
      this.orders := map[];
      this.orderItems := [];
      this.payments := map[];
      this.events := [];
      this.clock := 0;
    }

    /** Writes the customer table and the clock; the new contents must keep
        the tables consistent. */
    method SaveCustomers(customers: seq<Customer>, clock: nat)
      requires Consistent(customers, menuItems, orders, orderItems, payments, events, clock)
      modifies this
      ensures Valid()
      ensures this.customers == customers && this.clock == clock
      ensures categories == old(categories) && menuItems == old(menuItems) && orders == old(orders)
      ensures orderItems == old(orderItems) && payments == old(payments) && events == old(events)
    {
      this.customers := customers;
      this.clock := clock;
    }

    /** Writes the order-side tables together, as a committed transaction
        does; the new contents must keep the tables consistent. */
    method Commit(orders: map<string, OrderRecord>, orderItems: seq<OrderItem>, payments: map<string, Payment>,
                  events: seq<StatusEvent>, clock: nat)
      requires Consistent(customers, menuItems, orders, orderItems, payments, events, clock)
      modifies this
      ensures Valid()
      ensures customers == old(customers) && categories == old(categories) && menuItems == old(menuItems)
      ensures this.orders == orders && this.orderItems == orderItems && this.payments == payments
      ensures this.events == events && this.clock == clock
    {
      this.orders := orders;
      this.orderItems := orderItems;
      this.payments := payments;
      this.events := events;
      this.clock := clock;
    }
  }
}
