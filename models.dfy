/** The data model of the food-ordering backend (food_order_backend/api/models.py):
    the order status vocabulary, the rows of every table, the phone-number
    validator, the money arithmetic of an order and the `Order` instance with
    its two mutators, `RecalculateTotals` and `MarkStatus`. */
module Models {
  import opened Common

  // ---------------------------------------------------------------------------
  // Order.Status

  /** The seven order states. Any state may follow any other: the model, like
      the system, has no adjacency table. */
  datatype Status = Pending | Confirmed | Preparing | Ready | OutForDelivery | Completed | Cancelled

  /** The stored value of each choice (`Order.Status.values`). */
  const StatusValues: seq<string> :=
    ["PENDING", "CONFIRMED", "PREPARING", "READY", "OUT_FOR_DELIVERY", "COMPLETED", "CANCELLED"]

  function StatusValue(s: Status): (v: string)
    ensures v in StatusValues
  {
    match s
    case Pending => "PENDING"
    case Confirmed => "CONFIRMED"
    case Preparing => "PREPARING"
    case Ready => "READY"
    case OutForDelivery => "OUT_FOR_DELIVERY"
    case Completed => "COMPLETED"
    case Cancelled => "CANCELLED"
  }

  /** The choice a stored value denotes; `None` for a value outside the seven. */
  function ParseStatus(v: string): (r: Option<Status>)
    ensures r.Some? <==> v in StatusValues
    ensures r.Some? ==> StatusValue(r.value) == v
  {
    if v == "PENDING" then Some(Pending)
    else if v == "CONFIRMED" then Some(Confirmed)
    else if v == "PREPARING" then Some(Preparing)
    else if v == "READY" then Some(Ready)
    else if v == "OUT_FOR_DELIVERY" then Some(OutForDelivery)
    else if v == "COMPLETED" then Some(Completed)
    else if v == "CANCELLED" then Some(Cancelled)
    else None
  }

  /** Parsing the stored value of a status gives that status back. */
  lemma StatusValueRoundTrip(s: Status)
    ensures ParseStatus(StatusValue(s)) == Some(s)
  {
  }

  /** Distinct statuses are stored as distinct values. */
  lemma StatusValueInjective(s: Status, t: Status)
    requires StatusValue(s) == StatusValue(t)
    ensures s == t
  {
    StatusValueRoundTrip(s);
    StatusValueRoundTrip(t);
  }

  // ---------------------------------------------------------------------------
  // Rows

  /** A customer row; `email` is its natural (unique) key. `updatedAt` is the
      logical time of its last save. */
  datatype Customer = Customer(
    email: string,
    fullName: string,
    phone: string,
    defaultAddress: string,
    isActive: bool,
    updatedAt: nat)

  datatype Category = Category(
    id: nat,
    name: string,
    description: string,
    position: nat,
    isActive: bool)

  /** A menu item row; `category` is a nullable foreign key. */
  datatype MenuItem = MenuItem(
    id: nat,
    category: Option<nat>,
    name: string,
    description: string,
    priceCents: nat,
    imageUrl: string,
    isAvailable: bool,
    isActive: bool)

  /** An item can be ordered when it is neither soft-deleted nor unavailable. */
  predicate Orderable(m: MenuItem)
  {
    m.isActive && m.isAvailable
  }

  /** An order line; `order` is the order number it belongs to and
      `unitPriceCents` the price captured when the order was placed. */
  datatype OrderItem = OrderItem(order: string, menuItem: nat, quantity: nat, unitPriceCents: nat)

  const MinQuantity: nat := 1
  const MaxQuantity: nat := 100

  /** The field constraints of a line: quantity in [1, 100] (the unit price
      is a `nat`, so it is never negative). */
  predicate ItemWithinBounds(i: OrderItem)
  {
    MinQuantity <= i.quantity <= MaxQuantity
  }

  /** At most one line per menu item (unique together (order, menu_item))
      among lines of one order. */
  predicate DistinctMenuItems(items: seq<OrderItem>)
  {
    forall i, j :: 0 <= i < j < |items| ==> items[i].menuItem != items[j].menuItem
  }

  /** The stored columns of an order row, keyed elsewhere by its order number. */
  datatype OrderRecord = OrderRecord(
    customer: string,
    status: Status,
    specialInstructions: string,
    subtotalCents: nat,
    taxCents: nat,
    deliveryFeeCents: nat,
    totalCents: nat)

  datatype PaymentMethod = Card | Cash | Wallet
  datatype PaymentStatus = Initiated | Authorized | Captured | Failed | Refunded

  datatype Payment = Payment(
    order: string,
    paymentMethod: PaymentMethod,
    amountCents: nat,
    currency: string,
    status: PaymentStatus,
    processorRef: string)

  /** A payment row created with the column defaults (method CARD, currency
      USD, status INITIATED, no processor reference) for the given amount. */
  function InitialPayment(order: string, amountCents: nat): (p: Payment)
    ensures p.order == order && p.amountCents == amountCents
    ensures p.paymentMethod == Card && p.currency == "USD" && p.status == Initiated && p.processorRef == ""
  {
    Payment(order, Card, amountCents, "USD", Initiated, "")
  }

  /** An entry of the append-only audit trail; `at` is a logical time. */
  datatype StatusEvent = StatusEvent(order: string, fromStatus: Status, toStatus: Status, at: nat)

  /** The lines of order `n` (`order.items.all()`). */
  function ItemsOf(items: seq<OrderItem>, n: string): seq<OrderItem>
  {
    Filter(items, (i: OrderItem) => i.order == n)
  }

  lemma ItemsOfAppend(a: seq<OrderItem>, b: seq<OrderItem>, n: string)
    ensures ItemsOf(a + b, n) == ItemsOf(a, n) + ItemsOf(b, n)
  {
    FilterAppend(a, b, (i: OrderItem) => i.order == n);
  }

  /** The audit events of order `n`, oldest first (`filter(order=order)`). */
  function EventsOf(events: seq<StatusEvent>, n: string): seq<StatusEvent>
  {
    Filter(events, (e: StatusEvent) => e.order == n)
  }

  // ---------------------------------------------------------------------------
  // Customer.phone validator

  predicate IsPhoneChar(c: char)
  {
    '0' <= c <= '9' || c == '+' || c == '-' || c == '(' || c == ')' || c == ' '
  }

  /** `[0-9+\-() ]*`: matched one character at a time. */
  predicate PhoneCharsStar(s: string)
  {
    s == [] || (IsPhoneChar(s[0]) && PhoneCharsStar(s[1..]))
  }

  /** `^[0-9+\-() ]+\Z`: one allowed character followed by any number more,
      and then the end of the input. This is the check the validator is meant
      to make. */
  predicate PhoneMatches(s: string)
  {
    |s| >= 1 && IsPhoneChar(s[0]) && PhoneCharsStar(s[1..])
  }

  /** The pattern accepts a value exactly when it is non-empty and every
      character is a digit, `+`, `-`, `(`, `)` or a space. */
  lemma {:induction false} PhoneMatchesIff(s: string)
    ensures PhoneMatches(s) <==> |s| > 0 && forall i :: 0 <= i < |s| ==> IsPhoneChar(s[i])
  {
    if |s| > 0 {
      PhoneCharsStarIff(s[1..]);
      assert forall i :: 1 <= i < |s| ==> s[i] == s[1..][i - 1];
    }
  }

  lemma {:induction false} PhoneCharsStarIff(s: string)
    ensures PhoneCharsStar(s) <==> forall i :: 0 <= i < |s| ==> IsPhoneChar(s[i])
  {
    if s != [] {
      PhoneCharsStarIff(s[1..]);
      assert forall i :: 1 <= i < |s| ==> s[i] == s[1..][i - 1];
    }
  }

  /** The validator as written: a regular-expression *search* for
      `^[0-9+\-() ]+$`. In that dialect `$` also matches just before a final
      newline, so one trailing "\n" is accepted. */
  predicate PhoneRegexAsWritten(s: string)
  {
    PhoneMatches(s) || (|s| >= 1 && s[|s| - 1] == '\n' && PhoneMatches(s[..|s| - 1]))
  }

  /** "555\n" passes the validator as written although it holds a character
      outside the allowed set. */
  lemma TrailingNewlinePassesAsWritten()
    ensures PhoneRegexAsWritten("555\n")
    ensures !PhoneMatches("555\n")
  {
    assert "555\n"[..3] == "555";
    PhoneMatchesIff("555");
    PhoneMatchesIff("555\n");
    assert !IsPhoneChar("555\n"[3]);
  }

  /** The field as written is `blank=True`, so validators are skipped for
      the empty value, and it carries the validator as written. */
  predicate PhoneFieldAcceptsAsWritten(s: string)
  {
    s == "" || PhoneRegexAsWritten(s)
  }

  /** The field as written accepts exactly the values made only of digits,
      `+`, `-`, `(`, `)` and spaces, the empty value included, and those of
      them that are non-empty followed by one newline. */
  lemma PhoneFieldAsWrittenIff(s: string)
    ensures PhoneFieldAcceptsAsWritten(s) <==>
      || (forall i :: 0 <= i < |s| ==> IsPhoneChar(s[i]))
      || (|s| >= 2 && s[|s| - 1] == '\n' && forall i :: 0 <= i < |s| - 1 ==> IsPhoneChar(s[i]))
  {
    PhoneMatchesIff(s);
    if |s| >= 1 {
      var init := s[..|s| - 1];
      PhoneMatchesIff(init);
      assert forall i :: 0 <= i < |init| ==> init[i] == s[i];
    }
  }

  /** The same blank-allowed field with the intended pattern. */
  predicate PhoneFieldAccepts(s: string)
  {
    s == "" || PhoneMatches(s)
  }

  /** With the intended pattern, the field accepts exactly the values made
      only of digits, `+`, `-`, `(`, `)` and spaces, the empty value
      included. */
  lemma PhoneFieldAcceptsIff(s: string)
    ensures PhoneFieldAccepts(s) <==> forall i :: 0 <= i < |s| ==> IsPhoneChar(s[i])
  {
    PhoneMatchesIff(s);
  }

  // ---------------------------------------------------------------------------
  // Money

  function LineTotal(i: OrderItem): nat
  {
    i.quantity * i.unitPriceCents
  }

  /** Sum of quantity x unit price over the lines. */
  function Subtotal(items: seq<OrderItem>): nat
  {
    if items == [] then 0 else LineTotal(items[0]) + Subtotal(items[1..])
  }

  lemma {:induction false} SubtotalAppend(a: seq<OrderItem>, b: seq<OrderItem>)
    ensures Subtotal(a + b) == Subtotal(a) + Subtotal(b)
  {
    if a != [] {
      assert (a + b)[1..] == a[1..] + b;
      SubtotalAppend(a[1..], b);
    } else {
      assert a + b == b;
    }
  }

  /** Taking one line out of a sequence of lines takes its amount out of the
      subtotal. */
  lemma SubtotalRemove(b: seq<OrderItem>, k: nat)
    requires k < |b|
    ensures Subtotal(b) == LineTotal(b[k]) + Subtotal(b[..k] + b[k + 1..])
  {
    var before, after := b[..k], b[k + 1..];
    var rest := [b[k]] + after;
    assert b == before + rest;
    SubtotalAppend(before, rest);
    assert Subtotal(rest) == LineTotal(b[k]) + Subtotal(after) by {
      assert rest[1..] == after;
    }
    SubtotalAppend(before, after);
  }

  lemma MultisetRemove(b: seq<OrderItem>, k: nat)
    requires k < |b|
    ensures multiset(b[..k] + b[k + 1..]) == multiset(b) - multiset{b[k]}
  {
    assert b == b[..k] + [b[k]] + b[k + 1..];
  }

  /** The subtotal does not depend on the order in which the lines are read. */
  lemma {:induction false} SubtotalPermutation(a: seq<OrderItem>, b: seq<OrderItem>)
    requires multiset(a) == multiset(b)
    ensures Subtotal(a) == Subtotal(b)
    decreases |a|
  {
    if a == [] {
      assert |b| == |multiset(b)| == 0;
    } else {
      var x, tail := a[0], a[1..];
      assert a == [x] + tail;
      assert multiset(tail) == multiset(a) - multiset{x};
      assert x in multiset(b);
      var k :| 0 <= k < |b| && b[k] == x;
      var rest := b[..k] + b[k + 1..];
      MultisetRemove(b, k);
      SubtotalPermutation(tail, rest);
      SubtotalRemove(b, k);
    }
  }

  /** 8% of the subtotal rounded to the nearest cent, in integers. */
  function Tax(subtotal: nat): (t: nat)
    ensures 100 * t - 50 < 8 * subtotal < 100 * t + 50
    ensures t <= subtotal
    ensures subtotal == 0 ==> t == 0
  {
    (subtotal * 8 + 50) / 100
  }

  /** Only one integer lies within half a cent of 8% of the subtotal, even
      counting the half-way points themselves; so rounding half to even and
      rounding half up both give `Tax`. */
  lemma TaxUnique(subtotal: nat, t: int)
    requires 100 * t - 50 <= 8 * subtotal <= 100 * t + 50
    ensures t == Tax(subtotal)
  {
    NoTie(subtotal, t);
  }

  /** 8% of a whole number of cents is never exactly half-way between two
      whole cents. */
  lemma NoTie(subtotal: nat, t: int)
    ensures 8 * subtotal != 100 * t + 50 && 8 * subtotal != 100 * t - 50
  {
  }

  lemma TaxMonotone(a: nat, b: nat)
    requires a <= b
    ensures Tax(a) <= Tax(b)
  {
  }

  /** The totals invariant of an order row given its lines. */
  predicate TotalsHold(items: seq<OrderItem>, r: OrderRecord)
  {
    && r.subtotalCents == Subtotal(items)
    && r.taxCents == Tax(r.subtotalCents)
    && r.totalCents == r.subtotalCents + r.taxCents + r.deliveryFeeCents
  }

  // ---------------------------------------------------------------------------
  // The Order instance

  /** An order as a model instance in memory; `Record` is what `save()`
      writes to its row. */
  class Order {
    const orderNumber: string
    const customer: string
    var status: Status
    var specialInstructions: string
    var subtotalCents: nat
    var taxCents: nat
    var deliveryFeeCents: nat
    var totalCents: nat

    /** `Order.objects.create(...)` with the column defaults. */
    constructor (orderNumber: string, customer: string, specialInstructions: string, deliveryFeeCents: nat)
      ensures this.orderNumber == orderNumber && this.customer == customer
      ensures Record() == OrderRecord(customer, Pending, specialInstructions, 0, 0, deliveryFeeCents, 0)
    {
      this.orderNumber := orderNumber;
      this.customer := customer;
      this.status := Pending;
      this.specialInstructions := specialInstructions;
      this.subtotalCents := 0;
      this.taxCents := 0;
      this.deliveryFeeCents := deliveryFeeCents;
      this.totalCents := 0;
    }

    function Record(): OrderRecord
      reads this
    {
      OrderRecord(customer, status, specialInstructions, subtotalCents, taxCents, deliveryFeeCents, totalCents)
    }

    /** Recomputes subtotal, tax and total from the given lines (the order's
        `items`). Only the three totals change; a second call with the same
        lines changes nothing. */
    method RecalculateTotals(items: seq<OrderItem>)
      modifies this
      ensures TotalsHold(items, Record())
      ensures Record() == old(Record()).(subtotalCents := subtotalCents, taxCents := taxCents, totalCents := totalCents)
      ensures old(TotalsHold(items, Record())) ==> Record() == old(Record())
    {
      var subtotal := Subtotal(items);
      subtotalCents := subtotal;
      var tax := Tax(subtotal);
      taxCents := tax;
      totalCents := subtotal + tax + deliveryFeeCents;
    }

    /** Sets the status from its stored value; a value outside the seven is
        refused and leaves the order as it was. */
    method MarkStatus(newStatus: string) returns (r: Result<Status, string>)
      modifies this
      ensures r.Ok? <==> newStatus in StatusValues
      ensures r.Ok? ==> StatusValue(r.value) == newStatus && Record() == old(Record()).(status := r.value)
      ensures r.Err? ==> Record() == old(Record())
    {
      var parsed := ParseStatus(newStatus);
      if parsed.None? {
        return Err("Invalid status");
      }
      status := parsed.value;
      r := Ok(parsed.value);
    }
  }
}
