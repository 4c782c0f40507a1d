/** The read side of the API (food_order_backend/api/views.py): the catalog
    listings and an order's event listing, as filters and orderings over the
    tables. */
module Views {
  import opened Common
  import opened Ordering
  import opened Models
  import opened Tables

  // ---------------------------------------------------------------------------
  // Categories

  /** The sort key of `order_by("position", "name")`. */
  function CategoryKey(c: Category): SortKey
  {
    SortKey(c.position, c.name)
  }

  /** `CategoryListView.get_queryset`: the active categories, by position
      and then by name; each active category occurs as often as in the table
      and an inactive one not at all. */
  function ListActiveCategories(categories: seq<Category>): (r: seq<Category>)
    ensures forall c :: multiset(r)[c] == if c.isActive then multiset(categories)[c] else 0
    ensures SortedBy(r, CategoryKey)
  {
    var active := Filter(categories, (c: Category) => c.isActive);
    FilterMultiset(categories, (c: Category) => c.isActive);
    SortBy(active, CategoryKey)
  }

  // ---------------------------------------------------------------------------
  // Menu items

  /** The `category__position` an item sorts by. An item without a category
      has no position; the model places it before every positioned item
      (rank -1), as a NULL sorts first in an ascending order. */
  function CategoryRank(categories: seq<Category>, m: MenuItem): (rank: int)
    ensures rank >= -1
    ensures rank >= 0 <==> m.category.Some? && exists i :: 0 <= i < |categories| && categories[i].id == m.category.value
    ensures rank >= 0 ==> exists i :: 0 <= i < |categories| && categories[i].id == m.category.value
                                    && categories[i].position == rank
    ensures m.category.Some? && FindCategory(categories, m.category.value).Some? ==>
      rank == FindCategory(categories, m.category.value).value.position
  {
    match m.category
    case None => -1
    case Some(cid) =>
      match FindCategory(categories, cid)
      case None => -1
      case Some(c) => c.position
  }

  /** The category row with key `id`, if the table holds one. */
  function FindCategory(categories: seq<Category>, id: nat): (r: Option<Category>)
    ensures r.Some? ==> r.value in categories && r.value.id == id
    ensures r.None? <==> forall i :: 0 <= i < |categories| ==> categories[i].id != id
  {
    if categories == [] then None
    else if categories[0].id == id then Some(categories[0])
    else FindCategory(categories[1..], id)
  }

  /** The sort key of `order_by("category__position", "name")`. */
  function MenuKey(categories: seq<Category>): MenuItem -> SortKey
  {
    (m: MenuItem) => SortKey(CategoryRank(categories, m), m.name)
  }

  /** The optional `category_id` query parameter keeps an item when it is
      absent or names the item's category. */
  predicate InCategory(filter: Option<nat>, m: MenuItem)
  {
    filter.None? || m.category == filter
  }

  /** `MenuItemListView.get_queryset`: the orderable items, restricted to the
      requested category when one is given, by category position and then by
      name. Each item that qualifies occurs as often as in the table, any
      other not at all. */
  function ListAvailableMenuItems(items: seq<MenuItem>, categories: seq<Category>, filter: Option<nat>)
    : (r: seq<MenuItem>)
    ensures forall m :: multiset(r)[m] == if Orderable(m) && InCategory(filter, m) then multiset(items)[m] else 0
    ensures SortedBy(r, MenuKey(categories))
  {
    var available := Filter(items, Orderable);
    FilterMultiset(items, Orderable);
    var scoped := match filter
      case None => available
      case Some(cid) => Filter(available, (m: MenuItem) => m.category == Some(cid));
    FilterMultiset(available, (m: MenuItem) => m.category == filter);
    assert filter.Some? ==> scoped == Filter(available, (m: MenuItem) => m.category == filter);
    SortBy(scoped, MenuKey(categories))
  }

  /** A category no item belongs to gives an empty listing, not an error. */
  lemma UnknownCategoryIsEmpty(items: seq<MenuItem>, categories: seq<Category>, cid: nat)
    requires forall i :: 0 <= i < |items| ==> items[i].category != Some(cid)
    ensures ListAvailableMenuItems(items, categories, Some(cid)) == []
  {
    var r := ListAvailableMenuItems(items, categories, Some(cid));
    forall m ensures multiset(r)[m] == 0 {
      if m in multiset(items) {
        var k :| 0 <= k < |items| && items[k] == m;
      }
    }
    assert multiset(r) == multiset{};
  }

  // ---------------------------------------------------------------------------
  // Order events

  /** One entry of the event listing. */
  datatype EventEntry = EventEntry(fromStatus: Status, toStatus: Status, at: nat)

  datatype ViewError = NotFound

  /** The sort key of `order_by("-at")`: later events first. */
  function NewestFirst(e: StatusEvent): SortKey
  {
    SortKey(-(e.at as int), "")
  }

  function Entry(e: StatusEvent): EventEntry
  {
    EventEntry(e.fromStatus, e.toStatus, e.at)
  }

  /** The listing's payload: one entry per event, in the given order. */
  function Entries(es: seq<StatusEvent>): (r: seq<EventEntry>)
    ensures |r| == |es|
    ensures forall k :: 0 <= k < |es| ==> r[k] == Entry(es[k])
  {
    seq(|es|, k requires 0 <= k < |es| => Entry(es[k]))
  }

  lemma EntriesAppend(a: seq<StatusEvent>, b: seq<StatusEvent>)
    ensures Entries(a + b) == Entries(a) + Entries(b)
  {
    assert forall k :: 0 <= k < |b| ==> (a + b)[|a| + k] == b[k];
  }

  /** The events of order `n`, newest first. */
  function OrderEvents(events: seq<StatusEvent>, n: string): (r: seq<StatusEvent>)
    ensures forall e :: multiset(r)[e] == if e.order == n then multiset(events)[e] else 0
    ensures forall i, j :: 0 <= i < j < |r| ==> r[i].at >= r[j].at
  {
    FilterMultiset(events, (e: StatusEvent) => e.order == n);
    var r := SortBy(EventsOf(events, n), NewestFirst);
    assert forall i, j :: 0 <= i < j < |r| ==> KeyLe(NewestFirst(r[i]), NewestFirst(r[j]));
    r
  }

  /** `OrderEventsView.list`: not found for an unknown order number, otherwise
      the order's events newest first. */
  function ListOrderEvents(orders: map<string, OrderRecord>, events: seq<StatusEvent>, n: string)
    : (r: Result<seq<EventEntry>, ViewError>)
    ensures r.Err? <==> n !in orders
    ensures r.Ok? ==> r.value == Entries(OrderEvents(events, n))
  {
    if n !in orders then Err(NotFound) else Ok(Entries(OrderEvents(events, n)))
  }

  /** When events are logged in increasing time, newest first is the log
      of the order read backwards. */
  lemma {:induction false} NewestFirstIsReverse(es: seq<StatusEvent>)
    requires StrictlyIncreasingAt(es)
    ensures SortBy(es, NewestFirst) == Reverse(es)
  {
    if es != [] {
      var tail := es[1..];
      assert StrictlyIncreasingAt(tail) by {
        forall j, k | 0 <= j < k < |tail| ensures tail[j].at < tail[k].at {
          assert tail[j] == es[j + 1] && tail[k] == es[k + 1];
        }
      }
      NewestFirstIsReverse(tail);
      FirstIsOldest(es);
      InsertGreatest(es[0], SortBy(tail, NewestFirst), NewestFirst);
      ReverseCons(es);
    }
  }

  /** The first event of a log in increasing time sorts after all the others. */
  lemma FirstIsOldest(es: seq<StatusEvent>)
    requires StrictlyIncreasingAt(es) && es != []
    ensures var sorted := SortBy(es[1..], NewestFirst);
      forall i :: 0 <= i < |sorted| ==> !KeyLe(NewestFirst(es[0]), NewestFirst(sorted[i]))
  {
    var sorted := SortBy(es[1..], NewestFirst);
    forall i | 0 <= i < |sorted| ensures es[0].at < sorted[i].at {
      assert sorted[i] in multiset(es[1..]);
      var k :| 0 <= k < |es[1..]| && es[1..][k] == sorted[i];
      assert es[k + 1] == sorted[i];
    }
  }

  /** In consistent tables the listing of an existing order is its audit
      trail backwards: it starts with the event that set the current status
      and ends with the PENDING -> PENDING creation event. */
  lemma ListedTrail(
    customers: seq<Customer>, menuItems: seq<MenuItem>, orders: map<string, OrderRecord>,
    orderItems: seq<OrderItem>, payments: map<string, Payment>, events: seq<StatusEvent>, clock: nat, n: string)
    requires Consistent(customers, menuItems, orders, orderItems, payments, events, clock)
    requires n in orders
    ensures var r := ListOrderEvents(orders, events, n);
      && r.Ok?
      && r.value == Entries(Reverse(EventsOf(events, n)))
      && |r.value| > 0
      && r.value[0].toStatus == orders[n].status
      && r.value[|r.value| - 1] == EventEntry(Pending, Pending, r.value[|r.value| - 1].at)
  {
    var trail := EventsOf(events, n);
    OrderedListing(events, n);
    assert AuditTrail(trail, orders[n].status);
  }

  /** When the log is in increasing time, an order's events newest first are
      its events read backwards. */
  lemma OrderedListing(events: seq<StatusEvent>, n: string)
    requires StrictlyIncreasingAt(events)
    ensures OrderEvents(events, n) == Reverse(EventsOf(events, n))
  {
    var trail := EventsOf(events, n);
    FilterKeepsOrder(events, (e: StatusEvent) => e.order == n, (a: StatusEvent, b: StatusEvent) => a.at < b.at);
    assert StrictlyIncreasingAt(trail);
    NewestFirstIsReverse(trail);
  }
}
