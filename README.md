# Food-order backend: a verified model of the order engine

This project models the core of a Django food-ordering backend in Dafny and
proves what that core promises. The core has three parts:

- **models** (`food_order_backend/api/models.py`):
  - the seven order states;
  - the table rows;
  - the phone-number validator;
  - the order's money arithmetic;
  - the in-memory `Order` instance with its two mutators, `recalculate_totals` and `mark_status`.
- **serializers** (`food_order_backend/api/serializers.py`):
  - validation of a place-order request (customer dictionary, lines, delivery fee);
  - `create`: upsert the customer by e-mail, then one all-or-nothing step that writes the order, its lines, the totals, a payment stub and the first audit event;
  - `update` of an order's status, which appends one audit event per real change.
- **views** (`food_order_backend/api/views.py`): the two catalog listings and an order's event listing, as filters and orderings.

The database is a `Store` object (module `Tables`). It holds the tables as
sequences and maps, plus a logical clock. Its invariant `Valid()` gathers:

- the schema constraints: unique e-mails, unique menu keys, unique (order, menu item), quantity bounds, every foreign key of the order side resolving (customer, order, menu item), and one payment per order;
- the bookkeeping the engine keeps: totals match the lines, the payment amount equals the order total, and every order has an audit trail that starts with PENDING -> PENDING and ends in its current status.

The methods that write the tables keep `Valid()`. Each one's postcondition gives the new tables exactly in terms of the old ones. The totals and audit-trail parts of `Valid()` hold only while every write goes through these methods: the admin's order page (`food_order_backend/api/admin.py`, `OrderAdmin` with its `OrderItemInline`) can edit the status and the lines with no event and no recalculation.

Modules and files:

| file | module | models |
|---|---|---|
| common.dfy | `Common` | `Option`, `Result`, `Filter` (a queryset `.filter`) and its lemmas |
| ordering.dfy | `Ordering` | sort keys (rank, name) and a stable sort (`order_by`) |
| models.dfy | `Models` | models.py |
| tables.dfy | `Tables` | the database tables and their constraints |
| serializers.dfy | `Serializers` | serializers.py |
| views.dfy | `Views` | views.py |
| scenarios.dfy | `Scenarios` | worked examples: the totals of a small order, two status changes through the update, and the listing after them |

Modelling choices:

- **Tax.** The source computes tax as `int(round(subtotal * 0.08))` in floating point. The model uses the integer formula `(8 * subtotal + 50) / 100`. `Models.TaxUnique` proves this is the only integer within half a cent of 8 % of the subtotal. Since 8 % of a whole number of cents is never exactly half-way (`Models.NoTie`), round-half-even and round-half-up agree, and both give this formula.
- **Time.** `Store.clock` stands in for `timezone.now()`. Every write that stamps a time uses it and then advances it.
- **Order number.** The number drawn with `get_random_string(10).upper()` is a parameter of `Create`, required to be ten upper-case letters or digits.
- **Text fields.** The `customer` field is a `DictField` of `CharField`s. It refuses an empty dictionary, a value that is blank once trimmed, and a value holding a NUL character (the validator every REST-framework `CharField` carries). It returns the values trimmed of Python's white space. `special_instructions` is a `CharField` too: it is trimmed, may be blank, and refuses a NUL character.
- **Failure.** The database errors the source can raise become `Err` results: a duplicate order number, or two lines naming the same menu item. Nothing is written when one occurs, as with the rolled-back transaction.

Points where the code's behaviour is easy to misread, modelled as the code has it:

- An empty `items` list is accepted. `OrderItemCreateSerializer(many=True)` allows an empty list, and nothing else checks it.
- The customer upsert runs before the transaction. It is kept even when placing the order then fails (`Serializers.Create`).
- A colliding order number is not retried. It fails (`OrderNumberTaken`).
- The phone and address are overwritten whenever their key is present, not only when the value is non-empty. Because blank values are refused at validation, this difference cannot be observed through `create`.

## Model

| member | source | states |
|---|---|---|
| Models.ParseStatus | food_order_backend/api/models.py:85-92 | a stored value denotes a status exactly when it is one of the seven choices, and that status's stored value is the value itself |
| Models.StatusValueRoundTrip | food_order_backend/api/models.py:85-92 | parsing the stored value of any status gives that status back |
| Models.StatusValueInjective | food_order_backend/api/models.py:85-92 | two statuses with the same stored value are the same status |
| Models.PhoneMatchesIff | food_order_backend/api/models.py:37 | the intended phone pattern accepts a value exactly when it is non-empty and every character is a digit, `+`, `-`, `(`, `)` or a space |
| Models.TrailingNewlinePassesAsWritten | food_order_backend/api/models.py:37 | the validator as written (a search ending in `$`) accepts "555\n", which the intended pattern refuses |
| Models.PhoneFieldAsWrittenIff | food_order_backend/api/models.py:34-38 | the phone field as written, which may be blank, accepts a value exactly when every character is a digit, `+`, `-`, `(`, `)` or a space, or when such a non-empty value is followed by one newline |
| Models.PhoneFieldAcceptsIff | food_order_backend/api/models.py:34-38 | the blank-allowed field with the intended pattern accepts a value exactly when every character is a digit, `+`, `-`, `(`, `)` or a space |
| Models.InitialPayment | food_order_backend/api/models.py:169-174 | a new payment row has method CARD, currency USD, status INITIATED, no processor reference, and the given amount for the given order |
| Models.Subtotal | food_order_backend/api/models.py:115 | the subtotal: the sum over the lines of quantity times the price snapshot |
| Models.SubtotalAppend | food_order_backend/api/models.py:115 | the subtotal of two groups of lines is the sum of their subtotals |
| Models.SubtotalPermutation | food_order_backend/api/models.py:114-115 | the subtotal does not depend on the order in which the lines are read |
| Models.Tax | food_order_backend/api/models.py:118 | the tax lies strictly within half a cent of 8 % of the subtotal; it never exceeds the subtotal and is 0 for a zero subtotal |
| Models.TaxUnique | food_order_backend/api/models.py:118 | every integer within half a cent of 8 % of the subtotal, half-way points included, is the tax, so the rounding rule does not matter |
| Models.NoTie | food_order_backend/api/models.py:118 | 8 % of a whole number of cents is never exactly half-way between two whole cents |
| Models.TaxMonotone | food_order_backend/api/models.py:117-119 | a larger subtotal never has a smaller tax |
| Models.Order.constructor | food_order_backend/api/serializers.py:181-186 | a new order is PENDING, with the given customer, instructions and delivery fee and zero totals |
| Models.Order.RecalculateTotals | food_order_backend/api/models.py:112-120 | afterwards the subtotal is the sum over the lines, the tax is `Tax` of it and the total is subtotal + tax + fee; nothing but the three totals changes; a second call with the same lines changes nothing |
| Models.Order.MarkStatus | food_order_backend/api/models.py:123-127 | a value outside the seven choices is refused and leaves the order unchanged; a valid value becomes the status and nothing else changes |
| Tables.AuditTrailExtend | food_order_backend/api/serializers.py:215-221 | a real change from the current status extends an audit trail into one ending in the new status |
| Tables.AppendEventInOrder | food_order_backend/api/models.py:188 | an event stamped with the current time keeps the event log in strictly increasing time |
| Tables.Store.SaveCustomers | food_order_backend/api/serializers.py:176-177 | writes the customer table and the clock; the tables stay consistent and no other table changes |
| Tables.Store.Commit | food_order_backend/api/serializers.py:179-205 | writes the order-side tables as one step; the tables stay consistent and the customer table and catalog do not change |
| Serializers.Strip | food_order_backend/api/serializers.py:138 | a text field's trimming (`str.strip()`): the value without leading and trailing Python white space |
| Serializers.StripSlice | food_order_backend/api/serializers.py:138 | trimming keeps one contiguous slice of the value, and everything outside it is white space |
| Serializers.StripEnds | food_order_backend/api/serializers.py:138 | a trimmed value neither starts nor ends with white space |
| Serializers.StripEmptyIff | food_order_backend/api/serializers.py:138 | a value trims to nothing exactly when it is all white space |
| Serializers.StripIdempotent | food_order_backend/api/serializers.py:138 | trimming a trimmed value changes nothing |
| Serializers.CleanCustomerDict | food_order_backend/api/serializers.py:138 | the customer dictionary is accepted exactly when it is non-empty and no value is blank or holds a NUL once trimmed; the accepted values are the trimmed ones, under the same keys; the empty dictionary is refused with the one empty-dictionary error; any other rejection holds exactly one error per blank key and one per key whose value holds a NUL, and nothing else |
| Serializers.ValidateCustomer | food_order_backend/api/serializers.py:143-148 | accepted, unchanged, exactly when both `email` and `full_name` are present and non-empty; otherwise the one identity error |
| Serializers.CustomerField | food_order_backend/api/serializers.py:138-148 | accepted exactly when the dictionary is and both `email` and `full_name` are present; the value is the trimmed dictionary under the same keys, with a non-empty e-mail and full name; a refused dictionary's errors are passed on unchanged; when the dictionary passes, the only possible error is the identity error; every error is reported under `customer` |
| Serializers.FindOrderable | food_order_backend/api/serializers.py:113-116 | finds a menu item with the key exactly when some active and available item has it |
| Serializers.ValidateLine | food_order_backend/api/serializers.py:113-124 | a line is accepted exactly when its item can be ordered and its quantity lies in [1, 100], and then takes the item's current price; a rejected line reports each of the two faults exactly when it occurs |
| Serializers.ValidateLines | food_order_backend/api/serializers.py:139 | the list is accepted exactly when every line is, one validated line per requested line, in order |
| Serializers.ValidateLinesErrors | food_order_backend/api/serializers.py:139 | a rejected list reports exactly the errors of its failing lines |
| Serializers.ValidateLinesOnlyLineErrors | food_order_backend/api/serializers.py:139 | every error of a rejected list is reported under `items` |
| Serializers.AcceptedLinesPriced | food_order_backend/api/serializers.py:117-123 | every line of an accepted list keeps the requested item and quantity, has a quantity in [1, 100] and names an orderable item at its current price |
| Serializers.InstructionsField | food_order_backend/api/serializers.py:140 | missing or blank instructions become the empty text; other instructions are trimmed; a value holding a NUL once trimmed is refused, and nothing else is |
| Serializers.FeeField | food_order_backend/api/serializers.py:141 | a missing fee is 0; a negative fee is refused; any other fee is kept |
| Serializers.ValidatePlaceOrder | food_order_backend/api/serializers.py:138-148 | the request is accepted exactly when the customer, the lines, the instructions and the fee are; an accepted request has one line per requested line and the given fee, or 0; a rejection reports exactly the union of the four fields' errors |
| Serializers.AcceptedOrderIsRequested | food_order_backend/api/serializers.py:138-148 | an accepted request is well formed, and it is the request cleaned: the customer under the same keys with trimmed values, each line naming the requested item and quantity at the item's current price, and the trimmed instructions |
| Serializers.ValidatePlaceOrderErrors | food_order_backend/api/serializers.py:138-148 | in a rejection, the errors under `items` are exactly those of the failing lines, those under `customer` exactly the customer field's, and a negative fee is reported exactly when given |
| Serializers.FindCustomer | food_order_backend/api/serializers.py:160-161 | finds the customer with the e-mail, and finds none exactly when no row has it |
| Serializers.NewCustomer | food_order_backend/api/serializers.py:160-167 | the row `get_or_create` inserts: the e-mail, the full name, phone and address from the data or empty, active, stamped now |
| Serializers.Merge | food_order_backend/api/serializers.py:168-175 | the update after `get_or_create`: the full name replaced by a non-empty value, the phone and the address whenever their key is present |
| Serializers.MergeIdempotent | food_order_backend/api/serializers.py:168-175 | the merge keeps the e-mail, the active flag and the time stamp, and merging the same data twice is merging it once |
| Serializers.NewCustomerIsMerged | food_order_backend/api/serializers.py:160-175 | a customer just created from the data needs no update from the same data |
| Serializers.UpsertCustomers | food_order_backend/api/serializers.py:159-177 | the customer table after the upsert: a new row appended when no customer has the e-mail; otherwise the merged row, stamped now, only when the merge changes something |
| Serializers.UpsertKeepsOneCustomerPerEmail | food_order_backend/api/serializers.py:159-177 | after the upsert e-mails are still unique and exactly one customer has the requested e-mail, holding the merged profile; nobody else changes; at most one row is added |
| Serializers.UpsertIdempotent | food_order_backend/api/serializers.py:168-177 | repeating the upsert with the same data writes nothing |
| Serializers.UpsertKeepsTables | food_order_backend/api/serializers.py:159-177 | the upsert keeps e-mails unique, every time stamp in the past and every order's customer present |
| Serializers.UpsertKeepsConsistent | food_order_backend/api/serializers.py:159-177 | the upsert keeps the whole database consistent and the requested customer present |
| Serializers.UpsertCustomer | food_order_backend/api/serializers.py:159-177 | the customer table becomes `UpsertCustomers` of the old one; the clock advances exactly when a row was written; nothing else changes; the database stays consistent |
| Serializers.PlacedItemsSubtotal | food_order_backend/api/serializers.py:188-191 | the subtotal of the created lines is the sum over the requested lines of quantity times price snapshot |
| Serializers.CreateLines | food_order_backend/api/serializers.py:187-189 | the lines are created exactly when no two name the same menu item, one row per line in order; otherwise the first duplicate line is reported |
| Serializers.PlacedItemsFit | food_order_backend/api/models.py:136-145 | the created lines belong to the order, respect the quantity bounds, name existing menu items and name each item once |
| Serializers.PlaceOrder | food_order_backend/api/serializers.py:179-205 | succeeds exactly when the order number is new and the lines name distinct items; on success it adds the PENDING order with totals over its lines, its lines, a payment for the total and the PENDING -> PENDING event, and advances the clock; on failure nothing changes, and with a new order number the failure names the first line that repeats a menu item |
| Serializers.Create | food_order_backend/api/serializers.py:150-205 | the customer upsert always happens and advances the clock exactly when it writes; then the order is placed as in `PlaceOrder`, at the time following the upsert, advancing the clock once more; or nothing else changes, and with a new order number the failure names the first line that repeats a menu item |
| Serializers.PlacementKeepsConsistent | food_order_backend/api/serializers.py:179-205 | adding the order, its lines, its payment and its creation event keeps the database consistent, and the new order's totals hold over its lines |
| Serializers.PlacementKeepsOwners | food_order_backend/api/serializers.py:194-200 | the new order names an existing customer and has exactly one payment, for its total |
| Serializers.PlacementKeepsLines | food_order_backend/api/serializers.py:187-189 | the new lines keep the line table's constraints |
| Serializers.PlacementKeepsTotals | food_order_backend/api/serializers.py:190-192 | the new order's totals hold, and no other order gains or loses a line |
| Serializers.PlacementKeepsEvents | food_order_backend/api/serializers.py:201-204 | the creation event keeps the event log in time order and opens the new order's audit trail |
| Serializers.PlacementKeepsTrails | food_order_backend/api/serializers.py:201-204 | the creation event opens the new order's audit trail and leaves every other trail as it was |
| Serializers.UpdateOrderStatus | food_order_backend/api/serializers.py:212-222 | an unknown value is refused; the current status changes nothing; otherwise only the status column changes and exactly one (old -> new) event is appended; the database stays consistent |
| Serializers.TransitionKeepsConsistent | food_order_backend/api/serializers.py:219-221 | a real change, saved with its event, keeps the database consistent |
| Serializers.TransitionKeepsRows | food_order_backend/api/serializers.py:220 | changing only the status column keeps every constraint that does not mention the status |
| Serializers.TransitionKeepsAuditTrail | food_order_backend/api/serializers.py:221 | the appended event keeps the log in time order, and every trail ends in its order's current status |
| Serializers.TransitionKeepsTrails | food_order_backend/api/serializers.py:221 | the changed order's trail gains the event; every other trail is as it was |
| Ordering.SortBy | food_order_backend/api/views.py:45 | the result is a permutation of the input, sorted by the key |
| Ordering.InsertGreatest | food_order_backend/api/views.py:143 | inserting an element whose key is above every key present appends it |
| Common.FilterMultiset | food_order_backend/api/views.py:60 | a filter keeps every element that qualifies, as often as it occurs, and no other |
| Common.FilterKeepsOrder | food_order_backend/api/views.py:143 | a filter keeps the relative order of what it keeps |
| Views.ListActiveCategories | food_order_backend/api/views.py:44-45 | exactly the active categories, each as often as in the table, sorted by position and then name |
| Views.CategoryRank | food_order_backend/api/views.py:64 | an item whose category is in the table sorts by that category's position; an item without a category sorts before every positioned one; a non-negative rank is the position of a category the item names |
| Views.ListAvailableMenuItems | food_order_backend/api/views.py:59-64 | exactly the active and available items, of the requested category when one is given, each as often as in the table, sorted by category position and then name |
| Views.UnknownCategoryIsEmpty | food_order_backend/api/views.py:61-63 | a category no item belongs to gives an empty listing, not an error |
| Views.Entries | food_order_backend/api/views.py:144-151 | the listing's payload: one (from, to, at) entry per event, in the given order |
| Views.OrderEvents | food_order_backend/api/views.py:143 | exactly the order's events, each as often as in the log, latest first |
| Views.ListOrderEvents | food_order_backend/api/views.py:137-152 | not found exactly when the order number is unknown; otherwise one entry per event of the order, latest first |
| Views.NewestFirstIsReverse | food_order_backend/api/views.py:143 | for a log in increasing time, latest first is the log read backwards |
| Views.OrderedListing | food_order_backend/api/views.py:143 | for a log in increasing time, an order's events latest first are its events read backwards |
| Views.ListedTrail | food_order_backend/api/views.py:137-152 | in a consistent database the listing of an order is its audit trail backwards: it opens with the event that set the current status and closes with the PENDING -> PENDING creation event |
| Scenarios.SmallOrderTotals | food_order_backend/api/models.py:112-120 | three of a 1200-cent item with a 200-cent fee give subtotal 3600, tax 288 and total 4088 |
| Scenarios.OneOrderLog | food_order_backend/api/views.py:143 | the listing of a log that holds only one order's events, in increasing time, is that log backwards |
| Scenarios.TwoChangesListed | food_order_backend/api/views.py:137-152 | an order moved PENDING -> CONFIRMED -> CANCELLED lists both changes and then its creation event |
| Scenarios.Advance | food_order_backend/api/serializers.py:214-222 | a real status change through the update is accepted, keeps the database consistent, sets the status and appends its (old -> new) event at the current time |
| Scenarios.ConfirmThenCancel | food_order_backend/api/serializers.py:214-222 | a PENDING order confirmed and then cancelled through the update: both calls are accepted, the order ends CANCELLED and the log gains the two events at consecutive times |
| Scenarios.ListingGainsTwo | food_order_backend/api/views.py:137-152 | two events of an order appended at consecutive times after a log in increasing time come first in its listing, newest first, before what it listed already |

## Left out

- The place-order request is taken as well typed, with its required keys present: `customer` is a map from text to text, `items` a sequence, and each line has an integer `menu_item_id` and an integer `quantity`. The REST framework's "required", "null" and wrong-type errors for `customer`, `items`, `menu_item_id`, `quantity` and the customer values are not modelled.
- HTTP and REST-framework plumbing is not modelled: the request handlers, response codes other than not-found, `health`, and the authentication views and serializers. The field-list serializers (JSON shapes), the admin and the URL routing are not modelled either.
- `get_random_string` (randomness) is not modelled. The order number is a parameter of `Serializers.Create`.
- Wall-clock time stamps are not modelled. `created_at`, `updated_at` and `eta` are left out. Only a customer's last save and an event's time are kept, both as logical clock values.
- Concurrency, transaction isolation and races between requests are not modelled. Each operation runs alone, and the transaction is one atomic `Store.Commit`.
- Serializers.UpdateOrderStatus: the status column and the new event row are written in one `Store.Commit`. The source makes two separate writes with no transaction around them, so a failure between the two, which would leave the status changed without its event, is not modelled.
- Integer column ranges are not modelled: `nat` stands for `PositiveIntegerField`, without its upper bound of 2^31 - 1. Neither are text length limits such as `max_length`.
- The catalog tables are not modelled beyond what the engine reads: the unique category names, the unique (category, name) pairs of menu items and the menu item's foreign key to its category are not constraints of `Store`. Neither is the uniqueness of category keys: `Views.FindCategory` takes the first category with the key, which in a real table is the only one.
- The e-mail format is not modelled, because the `customer` dictionary's values are plain text fields. The phone validator is modelled as a predicate; like the source, the upsert does not apply it, since Django runs field validators only on full validation, not on `save()`.
- Views.ListAvailableMenuItems: a `category_id` parameter that is not a number is not modelled. The filter is given as an optional natural number, and the source's error for text that is not a number is left out.
- Views.CategoryRank: items without a category sort first, as SQLite and MySQL order NULL in an ascending sort. PostgreSQL and Oracle sort NULL last and would put those items at the end; that ordering is not modelled.
- Ordering.SortBy: names compare by code point. A database collation that orders text differently is not modelled, and neither is the order among rows whose keys are equal, which the database leaves unspecified.
- Models.Tax: the floating-point expression is replaced by the integer formula. The two agree wherever `subtotal * 0.08` is computed exactly enough to round correctly, which holds for any realistic subtotal.

## Findings

| source | as written | input that shows it | evidently intended | confidence | as-written member | corrected member |
|---|---|---|---|---|---|---|
| food_order_backend/api/models.py:37 | the phone validator searches for `^[0-9+\-() ]+$`; in Python's `re`, `$` also matches just before a final newline | "555\n" is accepted by `full_clean()` on a customer; no entry point of this repository shows it, since the API saves without running field validators and the admin form strips the value first | only digits, `+`, `-`, `(`, `)` and spaces, up to the end of the value | high (not executed) | Models.TrailingNewlinePassesAsWritten | Models.PhoneMatchesIff |
