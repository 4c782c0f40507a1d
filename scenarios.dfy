/** Worked examples of the order engine: the totals of a small order, a
    PENDING order confirmed and then cancelled through the status update,
    and the event listing after two status changes. */
module Scenarios {
  import opened Common
  import opened Models
  import opened Tables
  import opened Views
  import opened Serializers

  /** Three of a 1200-cent item with a 200-cent delivery fee: subtotal 3600,
      tax 288, total 4088. */
  lemma SmallOrderTotals(n: string, r: OrderRecord)
    requires TotalsHold([OrderItem(n, 1, 3, 1200)], r) && r.deliveryFeeCents == 200
    ensures r.subtotalCents == 3600 && r.taxCents == 288 && r.totalCents == 4088
  {
    assert Subtotal([OrderItem(n, 1, 3, 1200)]) == 3600 by {
      assert [OrderItem(n, 1, 3, 1200)][1..] == [];
    }
  }

  /** An order placed and then moved PENDING -> CONFIRMED -> CANCELLED lists
      its two changes and its creation event, newest first. */
  lemma TwoChangesListed(orders: map<string, OrderRecord>, n: string, created: StatusEvent, confirmed: StatusEvent,
                         cancelled: StatusEvent)
    requires n in orders
    requires created == StatusEvent(n, Pending, Pending, created.at)
    requires confirmed == StatusEvent(n, Pending, Confirmed, confirmed.at)
    requires cancelled == StatusEvent(n, Confirmed, Cancelled, cancelled.at)
    requires created.at < confirmed.at < cancelled.at
    ensures ListOrderEvents(orders, [created, confirmed, cancelled], n)
      == Ok([EventEntry(Confirmed, Cancelled, cancelled.at), EventEntry(Pending, Confirmed, confirmed.at),
             EventEntry(Pending, Pending, created.at)])
  {
    var events := [created, confirmed, cancelled];
    OneOrderLog(orders, events, n);
    ReverseThree(created, confirmed, cancelled);
    EntriesThree(cancelled, confirmed, created);
  }

  lemma ReverseThree<T>(a: T, b: T, c: T)
    ensures Reverse([a, b, c]) == [c, b, a]
  {
    assert [a, b, c][..2] == [a, b];
    assert [a, b][..1] == [a];
    assert [a][..0] == [];
  }

  lemma EntriesThree(a: StatusEvent, b: StatusEvent, c: StatusEvent)
    ensures Entries([a, b, c]) == [Entry(a), Entry(b), Entry(c)]
  {
  }

  /** A log in increasing time holding only events of order `n` is listed
      backwards. */
  lemma OneOrderLog(orders: map<string, OrderRecord>, events: seq<StatusEvent>, n: string)
    requires n in orders && StrictlyIncreasingAt(events)
    requires forall k :: 0 <= k < |events| ==> events[k].order == n
    ensures ListOrderEvents(orders, events, n) == Ok(Entries(Reverse(events)))
  {
    FilterAll(events, (e: StatusEvent) => e.order == n);
    NewestFirstIsReverse(events);
  }

  /** A PENDING order confirmed and then cancelled through the status update:
      both updates are accepted, the stored order ends CANCELLED in a
      consistent database, and the log gains the two changes, stamped at the
      current time and the next tick. ListingGainsTwo then puts them
      first in the order's listing, newest first. */
  method ConfirmThenCancel(db: Store, instance: Order)
    returns (first: Result<Status, StatusError>, second: Result<Status, StatusError>)
    requires db.Valid()
    requires instance.orderNumber in db.orders && db.orders[instance.orderNumber] == instance.Record()
    requires instance.status == Pending
    modifies db, instance
    ensures first == Ok(Confirmed) && second == Ok(Cancelled)
    ensures db.Valid() && instance.status == Cancelled
    ensures instance.orderNumber in db.orders && db.orders[instance.orderNumber].status == Cancelled
    ensures db.events == old(db.events)
      + [StatusEvent(instance.orderNumber, Pending, Confirmed, old(db.clock))]
      + [StatusEvent(instance.orderNumber, Confirmed, Cancelled, old(db.clock) + 1)]
    ensures db.clock == old(db.clock) + 2
  {
    first := Advance(db, instance, Confirmed);
    second := Advance(db, instance, Cancelled);
  }

  /** Two events of order `n`, stamped at the clock and the next tick and
      appended to a log in increasing time below the clock, come first in
      the order's listing, newest first. */
  lemma ListingGainsTwo(orders: map<string, OrderRecord>, events: seq<StatusEvent>, clock: nat,
                        a: StatusEvent, b: StatusEvent, n: string)
    requires n in orders
    requires StrictlyIncreasingAt(events) && forall k :: 0 <= k < |events| ==> events[k].at < clock
    requires a.order == n && b.order == n && a.at == clock && b.at == clock + 1
    ensures ListOrderEvents(orders, events + [a] + [b], n)
      == Ok([Entry(b), Entry(a)] + ListOrderEvents(orders, events, n).value)
  {
    var events' := events + [a] + [b];
    assert StrictlyIncreasingAt(events') by {
      forall j, k | 0 <= j < k < |events'| ensures events'[j].at < events'[k].at {
        if k < |events| {
          assert events'[j] == events[j] && events'[k] == events[k];
        } else if j < |events| {
          assert events'[j] == events[j];
        }
      }
    }
    OrderedListing(events, n);
    OrderedListing(events', n);
    LogGainsTwo(events, EventsOf(events, n), a, b, n);
  }

  /** One real status change through the status update: it is accepted and
      appends its (old -> new) event at the current time. */
  method Advance(db: Store, instance: Order, s: Status) returns (r: Result<Status, StatusError>)
    requires db.Valid()
    requires instance.orderNumber in db.orders && db.orders[instance.orderNumber] == instance.Record()
    requires s != instance.status
    modifies db, instance
    ensures r == Ok(s)
    ensures db.Valid() && instance.status == s
    ensures instance.orderNumber in db.orders && db.orders[instance.orderNumber] == instance.Record()
    ensures db.events == old(db.events) + [StatusEvent(instance.orderNumber, old(instance.status), s, old(db.clock))]
    ensures db.clock == old(db.clock) + 1
  {
    r := UpdateOrderStatus(db, instance, StatusValue(s));
    StatusValueInjective(r.value, s);
  }

  /** Two events of order `n` appended to the log come first in its listing. */
  lemma LogGainsTwo(events: seq<StatusEvent>, trail: seq<StatusEvent>, a: StatusEvent, b: StatusEvent, n: string)
    requires trail == EventsOf(events, n) && a.order == n && b.order == n
    ensures Entries(Reverse(EventsOf(events + [a] + [b], n))) == [Entry(b), Entry(a)] + Entries(Reverse(trail))
  {
    EventsOfAppend(events, a, n);
    EventsOfAppend(events + [a], b, n);
    assert EventsOf(events + [a] + [b], n) == trail + [a] + [b];
    ReverseTwo(trail, a, b);
    EntriesTwo(b, a, Reverse(trail));
  }

  lemma ReverseTwo<T>(s: seq<T>, a: T, b: T)
    ensures Reverse(s + [a] + [b]) == [b, a] + Reverse(s)
  {
    ReverseSnoc(s, a);
    ReverseSnoc(s + [a], b);
  }

  lemma EntriesTwo(b: StatusEvent, a: StatusEvent, rest: seq<StatusEvent>)
    ensures Entries([b, a] + rest) == [Entry(b), Entry(a)] + Entries(rest)
  {
    EntriesAppend([b, a], rest);
    assert Entries([b, a]) == [Entry(b), Entry(a)];
  }
}
