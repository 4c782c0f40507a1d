/** Request validation and the two write operations of the order engine
    (food_order_backend/api/serializers.py): placing an order (customer
    upsert, then order, lines, totals, payment stub and first audit event as
    one all-or-nothing step) and changing an order's status. */
module Serializers {
  import opened Common
  import opened Models
  import opened Tables

  // ---------------------------------------------------------------------------
  // Text fields: a text field trims surrounding white space and, unless it
  // allows blanks, refuses a value that is empty once trimmed; it also
  // refuses a trimmed value holding a NUL character.

  /** The characters Python's `str.strip()` removes: the ASCII white space
      and separators and the Unicode spaces and line separators. */
  const Whitespace: seq<char> := [
    ' ', '\t', '\n', '\r', '\U{0B}', '\U{0C}', '\U{1C}', '\U{1D}', '\U{1E}', '\U{1F}',
    '\U{85}', '\U{A0}', '\U{1680}',
    '\U{2000}', '\U{2001}', '\U{2002}', '\U{2003}', '\U{2004}', '\U{2005}', '\U{2006}',
    '\U{2007}', '\U{2008}', '\U{2009}', '\U{200A}',
    '\U{2028}', '\U{2029}', '\U{202F}', '\U{205F}', '\U{3000}']

  predicate IsSpace(c: char)
  {
    c in Whitespace
  }

  /** The value without its leading white space. */
  function TrimLeft(s: string): string
  {
    if s != [] && IsSpace(s[0]) then TrimLeft(s[1..]) else s
  }

  /** The value without its trailing white space. */
  function TrimRight(s: string): string
  {
    if s != [] && IsSpace(s[|s| - 1]) then TrimRight(s[..|s| - 1]) else s
  }

  /** `TrimLeft` cuts a prefix of white space, all of it. */
  lemma {:induction false} TrimLeftSpec(s: string)
    ensures |TrimLeft(s)| <= |s| && TrimLeft(s) == s[|s| - |TrimLeft(s)|..]
    ensures forall i :: 0 <= i < |s| - |TrimLeft(s)| ==> IsSpace(s[i])
    ensures TrimLeft(s) == [] || !IsSpace(TrimLeft(s)[0])
  {
    if s != [] && IsSpace(s[0]) {
      TrimLeftSpec(s[1..]);
      forall i | 1 <= i < |s| - |TrimLeft(s)| ensures IsSpace(s[i]) {
        assert s[i] == s[1..][i - 1];
      }
    }
  }

  /** `TrimRight` cuts a suffix of white space, all of it. */
  lemma {:induction false} TrimRightSpec(s: string)
    ensures |TrimRight(s)| <= |s| && TrimRight(s) == s[..|TrimRight(s)|]
    ensures forall i :: |TrimRight(s)| <= i < |s| ==> IsSpace(s[i])
    ensures TrimRight(s) == [] || !IsSpace(TrimRight(s)[|TrimRight(s)| - 1])
  {
    if s != [] && IsSpace(s[|s| - 1]) {
      TrimRightSpec(s[..|s| - 1]);
      forall i | |TrimRight(s)| <= i < |s| - 1 ensures IsSpace(s[i]) {
        assert s[i] == s[..|s| - 1][i];
      }
    }
  }

  /** `str.strip()`: the value without leading and trailing white space. */
  function Strip(s: string): string
  {
    TrimRight(TrimLeft(s))
  }

  /** Trimming keeps one contiguous slice of the value and removes only
      white space around it. */
  lemma StripSlice(s: string)
    ensures exists a, b :: (0 <= a <= b <= |s| && Strip(s) == s[a..b]
      && (forall i :: 0 <= i < a ==> IsSpace(s[i])) && (forall i :: b <= i < |s| ==> IsSpace(s[i])))
  {
    var left := TrimLeft(s);
    TrimLeftSpec(s);
    TrimRightSpec(left);
    var a := |s| - |left|;
    var b := a + |TrimRight(left)|;
    assert left == s[a..];
    assert TrimRight(left) == left[..b - a] == s[a..b];
    forall i | b <= i < |s| ensures IsSpace(s[i]) {
      assert s[i] == left[i - a];
    }
    assert 0 <= a <= b <= |s| && Strip(s) == s[a..b]
      && (forall i :: 0 <= i < a ==> IsSpace(s[i])) && (forall i :: b <= i < |s| ==> IsSpace(s[i]));
  }

  /** A stripped value neither starts nor ends with white space. */
  lemma StripEnds(s: string)
    ensures Strip(s) == [] || (!IsSpace(Strip(s)[0]) && !IsSpace(Strip(s)[|Strip(s)| - 1]))
  {
    var left := TrimLeft(s);
    var r := TrimRight(left);
    TrimLeftSpec(s);
    TrimRightSpec(left);
    if r != [] {
      assert r[0] == left[0];
    }
  }

  /** A value strips to nothing exactly when it is all white space. */
  lemma StripEmptyIff(s: string)
    ensures Strip(s) == [] <==> forall i :: 0 <= i < |s| ==> IsSpace(s[i])
  {
    var left := TrimLeft(s);
    TrimLeftSpec(s);
    TrimRightSpec(left);
    var a := |s| - |left|;
    if Strip(s) != [] && left != [] {
      assert left[0] == s[a];
    }
  }

  /** Trimming a trimmed value changes nothing. */
  lemma StripIdempotent(s: string)
    ensures Strip(Strip(s)) == Strip(s)
  {
    StripEnds(s);
    var r := Strip(s);
    if r != [] {
      assert TrimLeft(r) == r;
      assert TrimRight(r) == r;
    }
  }

  // ---------------------------------------------------------------------------
  // Validation

  /** What validation can report, with the field (and line) it is about. */
  datatype FieldError =
    | CustomerEmpty
    | CustomerValueBlank(key: string)
    | CustomerValueNull(key: string)
    | CustomerIdentityMissing
    | MenuItemNotOrderable(line: nat)
    | QuantityOutOfRange(line: nat)
    | InstructionsNull
    | DeliveryFeeNegative

  /** The request fields an error can be reported under. */
  datatype Field = CustomerKey | ItemsKey | InstructionsKey | DeliveryFeeKey

  /** The field an error is reported under. */
  function FieldOf(e: FieldError): Field
  {
    match e
    case CustomerEmpty | CustomerValueBlank(_) | CustomerValueNull(_) | CustomerIdentityMissing => CustomerKey
    case MenuItemNotOrderable(_) | QuantityOutOfRange(_) => ItemsKey
    case InstructionsNull => InstructionsKey
    case DeliveryFeeNegative => DeliveryFeeKey
  }

  function ErrorsOf<T>(r: Result<T, set<FieldError>>): set<FieldError>
  {
    if r.Err? then r.error else {}
  }

  /** A text value that is empty once trimmed. */
  predicate Blank(v: string)
  {
    Strip(v) == ""
  }

  /** A value holding a NUL character, which a text field refuses. */
  predicate HoldsNull(v: string)
  {
    '\0' in v
  }

  /** The keys whose values are blank. */
  function BlankKeys(data: map<string, string>): (r: set<string>)
    ensures forall k :: k in r <==> k in data && Blank(data[k])
  {
    set k | k in data && Blank(data[k])
  }

  /** A value of the `customer` dictionary that its text field refuses:
      blank, or holding a NUL character once trimmed. */
  predicate RefusedText(v: string)
  {
    Blank(v) || HoldsNull(Strip(v))
  }

  /** The `customer` field: a non-empty dictionary of text values, none blank
      once trimmed and none holding a NUL character; the values come back
      trimmed. Each refused value is reported under its key. */
  function CleanCustomerDict(data: map<string, string>): (r: Result<map<string, string>, set<FieldError>>)
    ensures r.Ok? <==> |data| > 0 && forall k :: k in data ==> !RefusedText(data[k])
    ensures r.Ok? ==> r.value.Keys == data.Keys
    ensures r.Ok? ==> forall k :: k in r.value ==> r.value[k] == Strip(data[k]) && r.value[k] != "" && !HoldsNull(r.value[k])
    ensures r.Err? ==> (CustomerEmpty in r.error <==> |data| == 0)
    ensures r.Err? && |data| > 0 ==>
      forall k :: CustomerValueBlank(k) in r.error <==> k in data && Blank(data[k])
    ensures r.Err? && |data| > 0 ==>
      forall k :: CustomerValueNull(k) in r.error <==> k in data && !Blank(data[k]) && HoldsNull(Strip(data[k]))
    ensures |data| == 0 ==> r == Err({CustomerEmpty})
    ensures r.Err? ==> forall e :: e in r.error ==> e == CustomerEmpty || e.CustomerValueBlank? || e.CustomerValueNull?
  {
    if |data| == 0 then Err({CustomerEmpty})
    else
      var blank, withNull := BlankKeys(data), NullKeys(data);
      if blank == {} && withNull == {} then
        Ok(map k | k in data :: Strip(data[k]))
      else Err(CustomerErrors(blank, withNull))
  }

  /** The keys whose values are not blank but hold a NUL character once
      trimmed. */
  function NullKeys(data: map<string, string>): (r: set<string>)
    ensures forall k :: k in r <==> k in data && !Blank(data[k]) && HoldsNull(Strip(data[k]))
  {
    set k | k in data && !Blank(data[k]) && HoldsNull(Strip(data[k]))
  }

  /** One error per refused key of the `customer` dictionary. */
  function CustomerErrors(blank: set<string>, withNull: set<string>): (r: set<FieldError>)
    ensures CustomerEmpty !in r
    ensures forall k :: CustomerValueBlank(k) in r <==> k in blank
    ensures forall k :: CustomerValueNull(k) in r <==> k in withNull
    ensures forall e :: e in r ==> FieldOf(e) == CustomerKey
    ensures forall e :: e in r ==> e.CustomerValueBlank? || e.CustomerValueNull?
  {
    (set k | k in blank :: CustomerValueBlank(k)) + (set k | k in withNull :: CustomerValueNull(k))
  }

  /** A dictionary entry that is present and not empty (Python truthiness). */
  predicate Present(d: map<string, string>, key: string)
  {
    key in d && d[key] != ""
  }

  /** `validate_customer`: both an e-mail and a full name are required. */
  function ValidateCustomer(value: map<string, string>): (r: Result<map<string, string>, set<FieldError>>)
    ensures r.Ok? <==> Present(value, "email") && Present(value, "full_name")
    ensures r.Ok? ==> r.value == value
    ensures r.Err? ==> r.error == {CustomerIdentityMissing}
  {
    if !Present(value, "email") || !Present(value, "full_name") then Err({CustomerIdentityMissing})
    else Ok(value)
  }

  /** A requested line: a menu item primary key and a quantity. */
  datatype LineRequest = LineRequest(menuItemId: int, quantity: int)

  /** A validated line, carrying the price snapshot. */
  datatype ValidatedLine = ValidatedLine(menuItem: nat, quantity: nat, unitPriceCents: nat)

  /** Some menu item with that key is active and available. */
  predicate OrderableId(menu: seq<MenuItem>, id: int)
  {
    exists i :: 0 <= i < |menu| && menu[i].id == id && Orderable(menu[i])
  }

  /** `v` is a line for an orderable menu item with that key, priced at that
      item's current price. */
  predicate PricedFrom(menu: seq<MenuItem>, id: int, v: ValidatedLine)
  {
    exists i :: 0 <= i < |menu| && menu[i].id == id && Orderable(menu[i]) && v.menuItem == id
      && v.unitPriceCents == menu[i].priceCents
  }

  /** The menu item with that key among those that can be ordered (the
      field's queryset), if any. */
  function FindOrderable(menu: seq<MenuItem>, id: int): (r: Option<MenuItem>)
    ensures r.Some? <==> OrderableId(menu, id)
    ensures r.Some? ==> r.value in menu && r.value.id == id && Orderable(r.value)
  {
    if menu == [] then None
    else if menu[0].id == id && Orderable(menu[0]) then Some(menu[0])
    else
      var r := FindOrderable(menu[1..], id);
      assert forall i :: 1 <= i < |menu| ==> menu[i] == menu[1..][i - 1];
      r
  }

  /** One line of the request (number `line`): the item must be active and
      available, the quantity within [1, 100]; an accepted line takes the
      item's current price as its unit price. Both faults are reported. */
  function ValidateLine(menu: seq<MenuItem>, line: nat, req: LineRequest): (r: Result<ValidatedLine, set<FieldError>>)
    ensures r.Ok? <==> OrderableId(menu, req.menuItemId) && MinQuantity <= req.quantity <= MaxQuantity
    ensures r.Ok? ==> r.value.quantity == req.quantity && PricedFrom(menu, req.menuItemId, r.value)
    ensures r.Err? ==>
      && (MenuItemNotOrderable(line) in r.error <==> !OrderableId(menu, req.menuItemId))
      && (QuantityOutOfRange(line) in r.error <==> !(MinQuantity <= req.quantity <= MaxQuantity))
      && r.error <= {MenuItemNotOrderable(line), QuantityOutOfRange(line)}
  {
    var item := FindOrderable(menu, req.menuItemId);
    var errors :=
      (if item.None? then {MenuItemNotOrderable(line)} else {})
      + (if req.quantity < MinQuantity || req.quantity > MaxQuantity then {QuantityOutOfRange(line)} else {});
    if errors == {} then
      assert item.value in menu;
      Ok(ValidatedLine(item.value.id, req.quantity, item.value.priceCents))
    else Err(errors)
  }

  /** Some line of the request fails with error `e`. */
  predicate ReportedByLine(menu: seq<MenuItem>, reqs: seq<LineRequest>, e: FieldError)
  {
    exists i :: 0 <= i < |reqs| && ValidateLine(menu, i, reqs[i]).Err? && e in ValidateLine(menu, i, reqs[i]).error
  }

  /** All lines; the errors of every failing line are collected. An empty
      list is accepted. */
  function ValidateLines(menu: seq<MenuItem>, reqs: seq<LineRequest>): (r: Result<seq<ValidatedLine>, set<FieldError>>)
    ensures r.Ok? <==> forall i :: 0 <= i < |reqs| ==> ValidateLine(menu, i, reqs[i]).Ok?
    ensures r.Ok? ==> |r.value| == |reqs|
    ensures r.Ok? ==> forall i :: 0 <= i < |reqs| ==> r.value[i] == ValidateLine(menu, i, reqs[i]).value
  {
    if reqs == [] then Ok([])
    else
      var n := |reqs| - 1;
      var init := reqs[..n];
      assert forall i :: 0 <= i < n ==> init[i] == reqs[i];
      var prev := ValidateLines(menu, init);
      var last := ValidateLine(menu, n, reqs[n]);
      if prev.Ok? && last.Ok? then Ok(prev.value + [last.value])
      else Err(ErrorsOf(prev) + ErrorsOf(last))
  }

  /** A rejected list reports exactly the errors of its failing lines, and
      only line errors. */
  lemma {:induction false} ValidateLinesErrors(menu: seq<MenuItem>, reqs: seq<LineRequest>)
    ensures ValidateLines(menu, reqs).Err? ==>
      forall e :: e in ValidateLines(menu, reqs).error <==> ReportedByLine(menu, reqs, e)
  {
    if reqs == [] { return; }
    var n := |reqs| - 1;
    var init := reqs[..n];
    ValidateLinesErrors(menu, init);
    var prev := ValidateLines(menu, init);
    var last := ValidateLine(menu, n, reqs[n]);
    var errors := ErrorsOf(prev) + ErrorsOf(last);
    assert ValidateLines(menu, reqs) == if prev.Ok? && last.Ok? then Ok(prev.value + [last.value]) else Err(errors);
    forall e ensures e in errors <==> ReportedByLine(menu, reqs, e) {
      ReportedSplit(menu, reqs, e);
    }
  }

  /** An error is reported by a list of lines exactly when it is reported by
      the lines before the last one or by the last one. */
  lemma ReportedSplit(menu: seq<MenuItem>, reqs: seq<LineRequest>, e: FieldError)
    requires reqs != []
    ensures var n := |reqs| - 1;
      ReportedByLine(menu, reqs, e) <==>
        ReportedByLine(menu, reqs[..n], e) || (ValidateLine(menu, n, reqs[n]).Err? && e in ValidateLine(menu, n, reqs[n]).error)
  {
    var n := |reqs| - 1;
    var init := reqs[..n];
    if ReportedByLine(menu, reqs, e) {
      var i :| 0 <= i < |reqs| && ValidateLine(menu, i, reqs[i]).Err? && e in ValidateLine(menu, i, reqs[i]).error;
      if i < n {
        assert init[i] == reqs[i];
      }
    }
    if ReportedByLine(menu, init, e) {
      var i :| 0 <= i < |init| && ValidateLine(menu, i, init[i]).Err? && e in ValidateLine(menu, i, init[i]).error;
      assert init[i] == reqs[i];
    }
  }

  /** Every error of a rejected list is a line error. */
  lemma {:induction false} ValidateLinesOnlyLineErrors(menu: seq<MenuItem>, reqs: seq<LineRequest>)
    ensures ValidateLines(menu, reqs).Err? ==> forall e :: e in ValidateLines(menu, reqs).error ==> FieldOf(e) == ItemsKey
  {
    if reqs != [] {
      ValidateLinesOnlyLineErrors(menu, reqs[..|reqs| - 1]);
    }
  }

  /** The body of a place-order request; the optional fields are `None` when
      the key is absent. */
  datatype PlaceOrderRequest = PlaceOrderRequest(
    customer: map<string, string>,
    items: seq<LineRequest>,
    specialInstructions: Option<string>,
    deliveryFeeCents: Option<int>)

  datatype ValidatedOrder = ValidatedOrder(
    customer: map<string, string>,
    lines: seq<ValidatedLine>,
    specialInstructions: string,
    deliveryFeeCents: nat)

  /** What a validated order guarantees to `Create`: a customer e-mail and
      name, and lines with quantities in [1, 100] that each name a menu item
      that can be ordered, at its current price. */
  ghost predicate WellFormed(menu: seq<MenuItem>, v: ValidatedOrder)
  {
    && Present(v.customer, "email") && Present(v.customer, "full_name")
    && forall k :: 0 <= k < |v.lines| ==>
         MinQuantity <= v.lines[k].quantity <= MaxQuantity && PricedFrom(menu, v.lines[k].menuItem, v.lines[k])
  }

  /** The `customer` field, then `validate_customer`: accepted exactly when
      the dictionary is and it has both an e-mail and a full name; the
      accepted value is the trimmed dictionary. The identity error is
      reported only once the dictionary itself is accepted. */
  function CustomerField(data: map<string, string>): (r: Result<map<string, string>, set<FieldError>>)
    ensures r.Ok? <==> CleanCustomerDict(data).Ok? && "email" in data && "full_name" in data
    ensures r.Ok? ==> r.value.Keys == data.Keys && forall k :: k in r.value ==> r.value[k] == Strip(data[k])
    ensures r.Ok? ==> Present(r.value, "email") && Present(r.value, "full_name")
    ensures r.Err? ==> (CustomerIdentityMissing in r.error <==> CleanCustomerDict(data).Ok?)
    ensures r.Err? ==> forall e :: e in r.error ==> FieldOf(e) == CustomerKey
    ensures CleanCustomerDict(data).Err? ==> r == CleanCustomerDict(data)
    ensures CleanCustomerDict(data).Ok? && r.Err? ==> r.error == {CustomerIdentityMissing}
  {
    match CleanCustomerDict(data)
    case Ok(d) => ValidateCustomer(d)
    case Err(e) => Err(e)
  }

  /** Every line of an accepted list is the requested line: the requested
      menu item and quantity, the quantity in [1, 100], and the item orderable
      and at its current price. */
  lemma AcceptedLinesPriced(menu: seq<MenuItem>, reqs: seq<LineRequest>)
    requires ValidateLines(menu, reqs).Ok?
    ensures forall k :: 0 <= k < |ValidateLines(menu, reqs).value| ==>
      && ValidateLines(menu, reqs).value[k].menuItem == reqs[k].menuItemId
      && ValidateLines(menu, reqs).value[k].quantity == reqs[k].quantity
      && MinQuantity <= ValidateLines(menu, reqs).value[k].quantity <= MaxQuantity
      && PricedFrom(menu, ValidateLines(menu, reqs).value[k].menuItem, ValidateLines(menu, reqs).value[k])
  {
    var lines := ValidateLines(menu, reqs).value;
    forall k | 0 <= k < |lines|
      ensures lines[k].menuItem == reqs[k].menuItemId && lines[k].quantity == reqs[k].quantity
      ensures MinQuantity <= lines[k].quantity <= MaxQuantity && PricedFrom(menu, lines[k].menuItem, lines[k])
    {
      assert lines[k] == ValidateLine(menu, k, reqs[k]).value;
    }
  }

  /** The delivery fee field: absent means 0, a negative value is refused. */
  function FeeField(fee: Option<int>): (r: Result<nat, set<FieldError>>)
    ensures r.Ok? <==> fee.None? || fee.value >= 0
    ensures r.Ok? ==> r.value == (if fee.None? then 0 else fee.value)
    ensures r.Err? ==> r.error == {DeliveryFeeNegative}
  {
    match fee
    case None => Ok(0)
    case Some(f) => if f < 0 then Err({DeliveryFeeNegative}) else Ok(f)
  }

  /** The optional `special_instructions` field: blanks allowed, absent
      means "", the value comes back trimmed, and a NUL character is refused. */
  function InstructionsField(text: Option<string>): (r: Result<string, set<FieldError>>)
    ensures r.Ok? <==> text.None? || !HoldsNull(Strip(text.value))
    ensures r.Ok? ==> r.value == (if text.None? then "" else Strip(text.value)) && !HoldsNull(r.value)
    ensures r.Err? ==> r.error == {InstructionsNull}
  {
    match text
    case None => Ok("")
    case Some(v) =>
      if Blank(v) then Ok("")
      else if HoldsNull(Strip(v)) then Err({InstructionsNull})
      else Ok(Strip(v))
  }

  /** The whole request: every field is checked and every error reported; a
      missing fee counts as 0 and missing instructions as "". An accepted
      order carries the trimmed customer dictionary, one line per requested
      line with its menu item, quantity and current price, the trimmed
      instructions and the fee. */
  function ValidatePlaceOrder(menu: seq<MenuItem>, req: PlaceOrderRequest): (r: Result<ValidatedOrder, set<FieldError>>)
    ensures r.Ok? <==>
      && CustomerField(req.customer).Ok?
      && ValidateLines(menu, req.items).Ok?
      && InstructionsField(req.specialInstructions).Ok?
      && (req.deliveryFeeCents.None? || req.deliveryFeeCents.value >= 0)
    ensures r.Ok? ==> |r.value.lines| == |req.items|
    ensures r.Ok? ==> r.value.deliveryFeeCents == (if req.deliveryFeeCents.None? then 0 else req.deliveryFeeCents.value)
    ensures r.Err? ==> r.error == ErrorsOf(CustomerField(req.customer)) + ErrorsOf(ValidateLines(menu, req.items))
                                  + ErrorsOf(InstructionsField(req.specialInstructions))
                                  + ErrorsOf(FeeField(req.deliveryFeeCents))
  {
    Combine(CustomerField(req.customer), ValidateLines(menu, req.items),
            InstructionsField(req.specialInstructions), FeeField(req.deliveryFeeCents))
  }

  /** The field results put together: the order when every field is
      accepted, otherwise the errors of all fields. */
  function Combine(
    customer: Result<map<string, string>, set<FieldError>>, lines: Result<seq<ValidatedLine>, set<FieldError>>,
    instructions: Result<string, set<FieldError>>, fee: Result<nat, set<FieldError>>)
    : (r: Result<ValidatedOrder, set<FieldError>>)
    ensures r.Ok? <==> customer.Ok? && lines.Ok? && instructions.Ok? && fee.Ok?
    ensures r.Ok? ==> r.value == ValidatedOrder(customer.value, lines.value, instructions.value, fee.value)
    ensures r.Err? ==> r.error == ErrorsOf(customer) + ErrorsOf(lines) + ErrorsOf(instructions) + ErrorsOf(fee)
  {
    if customer.Ok? && lines.Ok? && instructions.Ok? && fee.Ok? then
      Ok(ValidatedOrder(customer.value, lines.value, instructions.value, fee.value))
    else
      Err(ErrorsOf(customer) + ErrorsOf(lines) + ErrorsOf(instructions) + ErrorsOf(fee))
  }

  /** An accepted order is the request's own: the customer dictionary
      trimmed, under the same keys; one line per requested line, with its
      menu item and quantity, priced from that orderable item; the trimmed
      instructions, or "" when absent. */
  lemma AcceptedOrderIsRequested(menu: seq<MenuItem>, req: PlaceOrderRequest)
    requires ValidatePlaceOrder(menu, req).Ok?
    ensures WellFormed(menu, ValidatePlaceOrder(menu, req).value)
    ensures var v := ValidatePlaceOrder(menu, req).value;
      && v.customer.Keys == req.customer.Keys
      && (forall k :: k in v.customer ==> v.customer[k] == Strip(req.customer[k]))
      && |v.lines| == |req.items|
      && (forall i :: 0 <= i < |req.items| ==>
            && v.lines[i].menuItem == req.items[i].menuItemId
            && v.lines[i].quantity == req.items[i].quantity
            && PricedFrom(menu, req.items[i].menuItemId, v.lines[i]))
      && v.specialInstructions == (if req.specialInstructions.None? then "" else Strip(req.specialInstructions.value))
  {
    AcceptedLinesPriced(menu, req.items);
  }

  /** A rejected request reports, under `items`, exactly the errors of its
      failing lines; under `customer` exactly the errors of that field; and
      the fee error exactly when the fee is negative. */
  lemma ValidatePlaceOrderErrors(menu: seq<MenuItem>, req: PlaceOrderRequest)
    requires ValidatePlaceOrder(menu, req).Err?
    ensures forall e :: e in ValidatePlaceOrder(menu, req).error && FieldOf(e) == ItemsKey
                        <==> ReportedByLine(menu, req.items, e)
    ensures forall e :: e in ValidatePlaceOrder(menu, req).error && FieldOf(e) == CustomerKey
                        <==> e in ErrorsOf(CustomerField(req.customer))
    ensures DeliveryFeeNegative in ValidatePlaceOrder(menu, req).error
            <==> req.deliveryFeeCents.Some? && req.deliveryFeeCents.value < 0
  {
    var lines := ErrorsOf(ValidateLines(menu, req.items));
    ValidateLinesOnlyLineErrors(menu, req.items);
    ErrorsByField(ValidatePlaceOrder(menu, req).error, ErrorsOf(CustomerField(req.customer)), lines,
                  ErrorsOf(InstructionsField(req.specialInstructions)), ErrorsOf(FeeField(req.deliveryFeeCents)));
    ValidateLinesErrors(menu, req.items);
    forall e | ReportedByLine(menu, req.items, e) ensures e in lines {
    }
  }

  /** The errors of all fields, sorted back by the field they are reported
      under. */
  lemma ErrorsByField(all: set<FieldError>, customer: set<FieldError>, lines: set<FieldError>,
                      instructions: set<FieldError>, fee: set<FieldError>)
    requires all == customer + lines + instructions + fee
    requires forall e :: e in customer ==> FieldOf(e) == CustomerKey
    requires forall e :: e in lines ==> FieldOf(e) == ItemsKey
    requires instructions <= {InstructionsNull} && fee <= {DeliveryFeeNegative}
    ensures forall e :: e in all && FieldOf(e) == ItemsKey <==> e in lines
    ensures forall e :: e in all && FieldOf(e) == CustomerKey <==> e in customer
    ensures DeliveryFeeNegative in all <==> DeliveryFeeNegative in fee
  {
    assert FieldOf(DeliveryFeeNegative) == DeliveryFeeKey;
  }

  // ---------------------------------------------------------------------------
  // Customer upsert

  /** `dict.get(key, "")`. */
  function DictGet(d: map<string, string>, key: string): string
  {
    if key in d then d[key] else ""
  }

  /** The position of the customer with that e-mail, if there is one. */
  function FindCustomer(cs: seq<Customer>, email: string): (r: Option<nat>)
    ensures r.Some? ==> r.value < |cs| && cs[r.value].email == email
    ensures r.None? <==> forall i :: 0 <= i < |cs| ==> cs[i].email != email
  {
    if cs == [] then None
    else if cs[|cs| - 1].email == email then Some(|cs| - 1)
    else FindCustomer(cs[..|cs| - 1], email)
  }

  /** The row `get_or_create` inserts when no customer has the e-mail. */
  function NewCustomer(data: map<string, string>, now: nat): Customer
    requires "email" in data
  {
    Customer(data["email"], DictGet(data, "full_name"), DictGet(data, "phone"), DictGet(data, "address"), true, now)
  }

  /** The profile after the merge: the full name is replaced only by a
      non-empty value, the phone and the address whenever their key is present. */
  function Merge(c: Customer, data: map<string, string>): (m: Customer)
  {
    c.(fullName := if Present(data, "full_name") then data["full_name"] else c.fullName,
       phone := if "phone" in data then data["phone"] else c.phone,
       defaultAddress := if "address" in data then data["address"] else c.defaultAddress)
  }

  /** The merge never touches the e-mail, the active flag or the time stamp,
      and merging the same data twice is the same as merging it once. */
  lemma MergeIdempotent(c: Customer, data: map<string, string>)
    ensures Merge(c, data).email == c.email && Merge(c, data).isActive == c.isActive
    ensures Merge(c, data).updatedAt == c.updatedAt
    ensures Merge(Merge(c, data), data) == Merge(c, data)
  {
  }

  /** A customer just created from the data needs no update from the same data. */
  lemma NewCustomerIsMerged(data: map<string, string>, now: nat)
    requires "email" in data
    ensures Merge(NewCustomer(data, now), data) == NewCustomer(data, now)
  {
  }

  /** The customer table after the upsert at time `now`: a new row when the
      e-mail is unknown; otherwise the merged row, re-stamped, if the merge
      changed anything, and the table as it was if not. */
  function UpsertCustomers(cs: seq<Customer>, data: map<string, string>, now: nat): seq<Customer>
    requires "email" in data
  {
    match FindCustomer(cs, data["email"])
    case None => cs + [NewCustomer(data, now)]
    case Some(i) =>
      if Merge(cs[i], data) == cs[i] then cs
      else cs[i := Merge(cs[i], data).(updatedAt := now)]
  }

  /** The upsert keeps e-mails unique and leaves exactly one customer with
      the requested e-mail, holding the merged profile; nobody else changes. */
  lemma {:induction false} UpsertKeepsOneCustomerPerEmail(cs: seq<Customer>, data: map<string, string>, now: nat)
    requires "email" in data && UniqueEmails(cs)
    ensures var cs' := UpsertCustomers(cs, data, now);
      && UniqueEmails(cs')
      && (exists i :: 0 <= i < |cs'| && cs'[i].email == data["email"])
      && (forall i :: 0 <= i < |cs'| && cs'[i].email == data["email"] ==>
            cs'[i].(updatedAt := 0) == Merge(if i < |cs| then cs[i] else NewCustomer(data, now), data).(updatedAt := 0))
      && (forall i :: 0 <= i < |cs| && cs[i].email != data["email"] ==> cs'[i] == cs[i])
      && |cs| <= |cs'| <= |cs| + 1
  {
    var cs' := UpsertCustomers(cs, data, now);
    match FindCustomer(cs, data["email"])
    case None =>
      NewCustomerIsMerged(data, now);
      assert cs'[|cs|].email == data["email"];
    case Some(k) =>
      MergeIdempotent(cs[k], data);
      assert cs'[k].email == data["email"];
  }

  /** Repeating an upsert with the same data writes nothing: the customer is
      saved only when something changed. */
  lemma {:induction false} UpsertIdempotent(cs: seq<Customer>, data: map<string, string>, now: nat, later: nat)
    requires "email" in data && UniqueEmails(cs)
    ensures UpsertCustomers(UpsertCustomers(cs, data, now), data, later) == UpsertCustomers(cs, data, now)
  {
    var cs' := UpsertCustomers(cs, data, now);
    var email := data["email"];
    match FindCustomer(cs, email)
    case None =>
      NewCustomerIsMerged(data, now);
      var f := FindCustomer(cs', email);
      assert f == Some(|cs|) by {
        assert cs'[|cs|].email == email;
        assert forall i :: 0 <= i < |cs| ==> cs'[i] == cs[i];
      }
    case Some(k) =>
      MergeIdempotent(cs[k], data);
      assert cs'[k].email == email;
      var f := FindCustomer(cs', email);
      assert f == Some(k) by {
        assert f.Some?;
      }
  }

  /** The clock after the upsert at time `now`: it advances when a row was
      written. */
  function UpsertClock(cs: seq<Customer>, data: map<string, string>, now: nat): nat
    requires "email" in data
  {
    if UpsertCustomers(cs, data, now) == cs then now else now + 1
  }

  /** The customer part of placing an order (`get_or_create` by e-mail, then
      the field-by-field update with its `updated` flag, then `save()` only if
      something changed). Returns the e-mail, the customer's key. */
  method UpsertCustomer(db: Store, data: map<string, string>) returns (email: string)
    requires db.Valid()
    requires "email" in data
    modifies db
    ensures db.Valid()
    ensures email == data["email"] && HasCustomer(db.customers, email)
    ensures db.customers == UpsertCustomers(old(db.customers), data, old(db.clock))
    ensures db.clock == UpsertClock(old(db.customers), data, old(db.clock))
    ensures db.categories == old(db.categories) && db.menuItems == old(db.menuItems)
    ensures db.orders == old(db.orders) && db.orderItems == old(db.orderItems)
    ensures db.payments == old(db.payments) && db.events == old(db.events)
  {
    var now := db.clock;
    email := data["email"];
    var customers := db.customers;
    var found := FindCustomer(customers, email);
    var idx: nat;
    var c: Customer;
    var created := false;
    if found.None? {
      c := NewCustomer(data, now);
      idx := |customers|;
      customers := customers + [c];
      created := true;
      NewCustomerIsMerged(data, now);
    } else {
      idx := found.value;
      c := customers[idx];
    }
    ghost var before := c;
    var updated := false;
    if Present(data, "full_name") && c.fullName != data["full_name"] {
      c := c.(fullName := data["full_name"]);
      updated := true;
    }
    if "phone" in data && c.phone != DictGet(data, "phone") {
      c := c.(phone := DictGet(data, "phone"));
      updated := true;
    }
    if "address" in data && c.defaultAddress != DictGet(data, "address") {
      c := c.(defaultAddress := DictGet(data, "address"));
      updated := true;
    }
    assert c == Merge(before, data);
    assert updated <==> c != before;
    if updated {
      customers := customers[idx := c.(updatedAt := now)];
    }
    var clock := if created || updated then now + 1 else now;
    assert customers == UpsertCustomers(db.customers, data, now);
    assert clock == UpsertClock(db.customers, data, now);
    UpsertKeepsConsistent(db.customers, db.menuItems, db.orders, db.orderItems, db.payments, db.events, now, data);
    db.SaveCustomers(customers, clock);
  }

  /** The upsert keeps the tables consistent. */
  lemma UpsertKeepsConsistent(
    customers: seq<Customer>, menuItems: seq<MenuItem>, orders: map<string, OrderRecord>,
    orderItems: seq<OrderItem>, payments: map<string, Payment>, events: seq<StatusEvent>, now: nat,
    data: map<string, string>)
    requires "email" in data
    requires Consistent(customers, menuItems, orders, orderItems, payments, events, now)
    ensures Consistent(UpsertCustomers(customers, data, now), menuItems, orders, orderItems, payments, events,
                       UpsertClock(customers, data, now))
    ensures HasCustomer(UpsertCustomers(customers, data, now), data["email"])
  {
    UpsertKeepsTables(customers, orders, data, now);
    EventsOkLater(orders, events, now, UpsertClock(customers, data, now));
  }

  /** The upsert at time `now` keeps e-mails unique and every time stamp
      below the advanced clock, and every order still names a customer. */
  lemma UpsertKeepsTables(cs: seq<Customer>, orders: map<string, OrderRecord>, data: map<string, string>, now: nat)
    requires "email" in data
    requires CustomersOk(cs, now) && OrdersOk(cs, orders)
    ensures var cs' := UpsertCustomers(cs, data, now);
      CustomersOk(cs', now + 1) && OrdersOk(cs', orders) && HasCustomer(cs', data["email"])
  {
    var cs' := UpsertCustomers(cs, data, now);
    UpsertKeepsOneCustomerPerEmail(cs, data, now);
    forall n | n in orders ensures HasCustomer(cs', orders[n].customer) {
      var e := orders[n].customer;
      var i :| 0 <= i < |cs| && cs[i].email == e;
      if e != data["email"] {
        assert cs'[i] == cs[i];
      }
    }
  }

  /** Advancing the clock keeps every event in the past. */
  lemma EventsOkLater(orders: map<string, OrderRecord>, events: seq<StatusEvent>, clock: nat, later: nat)
    requires EventsOk(orders, events, clock) && clock <= later
    ensures EventsOk(orders, events, later)
  {
  }

  // ---------------------------------------------------------------------------
  // Placing an order

  /** An order number as generated: ten characters, upper-case letters and digits. */
  predicate IsOrderToken(s: string)
  {
    |s| == 10 && forall i :: 0 <= i < |s| ==> 'A' <= s[i] <= 'Z' || '0' <= s[i] <= '9'
  }

  /** No two lines of one request name the same menu item. */
  predicate DistinctLines(lines: seq<ValidatedLine>)
  {
    forall i, j :: 0 <= i < j < |lines| ==> lines[i].menuItem != lines[j].menuItem
  }

  function LineItem(n: string, l: ValidatedLine): OrderItem
  {
    OrderItem(n, l.menuItem, l.quantity, l.unitPriceCents)
  }

  /** The rows created for the lines of order `n`, one per line, in order. */
  function PlacedItems(n: string, lines: seq<ValidatedLine>): (r: seq<OrderItem>)
    ensures |r| == |lines|
    ensures forall k :: 0 <= k < |lines| ==> r[k] == LineItem(n, lines[k])
  {
    seq(|lines|, k requires 0 <= k < |lines| => LineItem(n, lines[k]))
  }

  /** The subtotal of a placed order is the sum over its requested lines of
      quantity times the price snapshot. */
  function LinesSubtotal(lines: seq<ValidatedLine>): nat
  {
    if lines == [] then 0 else lines[0].quantity * lines[0].unitPriceCents + LinesSubtotal(lines[1..])
  }

  lemma {:induction false} PlacedItemsSubtotal(n: string, lines: seq<ValidatedLine>)
    ensures Subtotal(PlacedItems(n, lines)) == LinesSubtotal(lines)
  {
    if lines != [] {
      PlacedItemsSubtotal(n, lines[1..]);
      assert PlacedItems(n, lines)[1..] == PlacedItems(n, lines[1..]);
    }
  }

  /** The order-side tables after order `n` was placed with record `row` at
      time `at`: the order row, one line row per requested line, a payment stub
      for the total and the PENDING -> PENDING event are added, and nothing else. */
  predicate Placed(
    orders: map<string, OrderRecord>, items: seq<OrderItem>, payments: map<string, Payment>, events: seq<StatusEvent>,
    orders': map<string, OrderRecord>, items': seq<OrderItem>, payments': map<string, Payment>, events': seq<StatusEvent>,
    n: string, lines: seq<ValidatedLine>, row: OrderRecord, at: nat)
  {
    && orders' == orders[n := row]
    && items' == items + PlacedItems(n, lines)
    && payments' == payments[n := InitialPayment(n, row.totalCents)]
    && events' == events + [StatusEvent(n, Pending, Pending, at)]
  }

  datatype CreateError =
    | OrderNumberTaken       // unique order_number
    | DuplicateMenuItem(line: nat)  // unique (order, menu_item)

  /** `PlaceOrderSerializer.create`: upsert the customer (kept even when what
      follows fails), then place the order. */
  method Create(db: Store, v: ValidatedOrder, orderNumber: string) returns (r: Result<OrderRecord, CreateError>)
    requires db.Valid()
    requires WellFormed(db.menuItems, v)
    requires IsOrderToken(orderNumber)
    modifies db
    ensures db.Valid()
    ensures db.customers == UpsertCustomers(old(db.customers), v.customer, old(db.clock))
    ensures db.categories == old(db.categories) && db.menuItems == old(db.menuItems)
    ensures r.Ok? <==> orderNumber !in old(db.orders) && DistinctLines(v.lines)
    ensures r.Err? ==>
      && db.orders == old(db.orders) && db.orderItems == old(db.orderItems)
      && db.payments == old(db.payments) && db.events == old(db.events)
      && db.clock == UpsertClock(old(db.customers), v.customer, old(db.clock))
    ensures r.Err? && orderNumber in old(db.orders) ==> r.error == OrderNumberTaken
    ensures r.Err? && orderNumber !in old(db.orders) ==> r.error.DuplicateMenuItem? && FirstDuplicate(v.lines, r.error.line)
    ensures r.Ok? ==>
      && r.value == OrderRecord(v.customer["email"], Pending, v.specialInstructions,
                                r.value.subtotalCents, r.value.taxCents, v.deliveryFeeCents, r.value.totalCents)
      && TotalsHold(PlacedItems(orderNumber, v.lines), r.value)
      && r.value.subtotalCents == LinesSubtotal(v.lines)
      && Placed(old(db.orders), old(db.orderItems), old(db.payments), old(db.events),
                db.orders, db.orderItems, db.payments, db.events, orderNumber, v.lines, r.value,
                UpsertClock(old(db.customers), v.customer, old(db.clock)))
      && db.clock == UpsertClock(old(db.customers), v.customer, old(db.clock)) + 1
  {
    var email := UpsertCustomer(db, v.customer);
    r := PlaceOrder(db, email, v, orderNumber);
  }

  /** The `transaction.atomic()` block of `create`, all or nothing: the
      PENDING order, one line per requested line with its price snapshot,
      the totals, a payment stub for the total and the PENDING -> PENDING
      event, stamped with the current time. */
  method PlaceOrder(db: Store, email: string, v: ValidatedOrder, orderNumber: string)
    returns (r: Result<OrderRecord, CreateError>)
    requires db.Valid()
    requires WellFormed(db.menuItems, v) && HasCustomer(db.customers, email)
    modifies db
    ensures db.Valid()
    ensures db.customers == old(db.customers)
    ensures db.categories == old(db.categories) && db.menuItems == old(db.menuItems)
    ensures r.Ok? <==> orderNumber !in old(db.orders) && DistinctLines(v.lines)
    ensures r.Err? ==>
      && db.orders == old(db.orders) && db.orderItems == old(db.orderItems)
      && db.payments == old(db.payments) && db.events == old(db.events) && db.clock == old(db.clock)
    ensures r.Err? && orderNumber in old(db.orders) ==> r.error == OrderNumberTaken
    ensures r.Err? && orderNumber !in old(db.orders) ==> r.error.DuplicateMenuItem? && FirstDuplicate(v.lines, r.error.line)
    ensures r.Ok? ==>
      && r.value == OrderRecord(email, Pending, v.specialInstructions,
                                r.value.subtotalCents, r.value.taxCents, v.deliveryFeeCents, r.value.totalCents)
      && TotalsHold(PlacedItems(orderNumber, v.lines), r.value)
      && r.value.subtotalCents == LinesSubtotal(v.lines)
      && Placed(old(db.orders), old(db.orderItems), old(db.payments), old(db.events),
                db.orders, db.orderItems, db.payments, db.events, orderNumber, v.lines, r.value, old(db.clock))
      && db.clock == old(db.clock) + 1
  {
    if orderNumber in db.orders {
      return Err(OrderNumberTaken);
    }
    var order := new Order(orderNumber, email, v.specialInstructions, v.deliveryFeeCents);
    var lines := CreateLines(orderNumber, v.lines);
    if lines.Err? {
      return Err(lines.error);
    }
    var allItems := db.orderItems + lines.value;
    order.RecalculateTotals(ItemsOf(allItems, orderNumber));
    var row := order.Record();
    var now := db.clock;
    PlacementKeepsConsistent(db.customers, db.menuItems, db.orders, db.orderItems, db.payments, db.events, now,
                             orderNumber, row, v);
    db.Commit(db.orders[orderNumber := row], allItems,
              db.payments[orderNumber := InitialPayment(orderNumber, row.totalCents)],
              db.events + [StatusEvent(orderNumber, Pending, Pending, now)], now + 1);
    r := Ok(row);
  }

  /** The first line whose menu item an earlier line already names. */
  predicate FirstDuplicate(lines: seq<ValidatedLine>, i: nat)
  {
    && i < |lines|
    && DistinctLines(lines[..i])
    && exists j :: 0 <= j < i && lines[j].menuItem == lines[i].menuItem
  }

  /** Creates the rows of the request's lines one at a time; a line whose menu
      item an earlier line of the same order already names breaks the unique
      (order, menu item) constraint and stops the creation. */
  method CreateLines(n: string, lines: seq<ValidatedLine>) returns (r: Result<seq<OrderItem>, CreateError>)
    ensures r.Ok? <==> DistinctLines(lines)
    ensures r.Ok? ==> r.value == PlacedItems(n, lines)
    ensures r.Err? ==> r.error.DuplicateMenuItem? && FirstDuplicate(lines, r.error.line)
  {
    var created: seq<OrderItem> := [];
    var i := 0;
    while i < |lines|
      invariant 0 <= i <= |lines|
      invariant created == PlacedItems(n, lines[..i])
      invariant DistinctLines(lines[..i])
    {
      var line := lines[i];
      var j := 0;
      while j < |created|
        invariant 0 <= j <= |created|
        invariant forall k :: 0 <= k < j ==> lines[k].menuItem != line.menuItem
      {
        if created[j].menuItem == line.menuItem {
          assert lines[j].menuItem == line.menuItem;
          return Err(DuplicateMenuItem(i));
        }
        j := j + 1;
      }
      created := created + [LineItem(n, line)];
      assert lines[..i + 1] == lines[..i] + [line];
      i := i + 1;
    }
    assert lines[..i] == lines;
    r := Ok(created);
  }

  /** The rows of a well-formed request with distinct menu items fit the
      line table: they belong to the order, respect the quantity bounds and
      name existing menu items, one line per item. */
  lemma PlacedItemsFit(menu: seq<MenuItem>, n: string, v: ValidatedOrder)
    requires WellFormed(menu, v) && DistinctLines(v.lines)
    ensures var created := PlacedItems(n, v.lines);
      && DistinctMenuItems(created)
      && forall k :: 0 <= k < |created| ==>
           created[k].order == n && ItemWithinBounds(created[k]) && HasMenuItem(menu, created[k].menuItem)
  {
    var created := PlacedItems(n, v.lines);
    forall k | 0 <= k < |created| ensures HasMenuItem(menu, created[k].menuItem) {
      var line := v.lines[k];
      assert PricedFrom(menu, line.menuItem, line);
      var i :| 0 <= i < |menu| && menu[i].id == line.menuItem && Orderable(menu[i]) && line.menuItem == line.menuItem
        && line.unitPriceCents == menu[i].priceCents;
      assert menu[i].id == created[k].menuItem;
    }
  }

  /** Placing order `n` (its row, its lines, its payment stub and its
      creation event at `now`, then advancing the clock) keeps the tables
      consistent. */
  lemma PlacementKeepsConsistent(
    customers: seq<Customer>, menu: seq<MenuItem>, orders: map<string, OrderRecord>, items: seq<OrderItem>,
    payments: map<string, Payment>, events: seq<StatusEvent>, now: nat,
    n: string, row: OrderRecord, v: ValidatedOrder)
    requires Consistent(customers, menu, orders, items, payments, events, now)
    requires n !in orders && HasCustomer(customers, row.customer)
    requires WellFormed(menu, v) && DistinctLines(v.lines)
    requires TotalsHold(ItemsOf(items + PlacedItems(n, v.lines), n), row) && row.status == Pending
    ensures TotalsHold(PlacedItems(n, v.lines), row) && row.subtotalCents == LinesSubtotal(v.lines)
    ensures Consistent(customers, menu, orders[n := row], items + PlacedItems(n, v.lines),
                       payments[n := InitialPayment(n, row.totalCents)],
                       events + [StatusEvent(n, Pending, Pending, now)], now + 1)
  {
    var created := PlacedItems(n, v.lines);
    PlacedItemsFit(menu, n, v);
    ItemsOfAppend(items, created, n);
    ItemsOfAbsent(items, n);
    ItemsOfAll(created, n);
    assert ItemsOf(items + created, n) == created;
    PlacedItemsSubtotal(n, v.lines);
    assert CustomersOk(customers, now + 1);
    PlacementKeepsOwners(customers, orders, payments, n, row);
    PlacementKeepsLines(menu, orders, items, n, row, created);
    PlacementKeepsTotals(orders, items, n, row, created);
    PlacementKeepsEvents(orders, events, now, n, row, StatusEvent(n, Pending, Pending, now));
  }

  /** The new order names an existing customer and gets the one payment
      for its total. */
  lemma PlacementKeepsOwners(
    customers: seq<Customer>, orders: map<string, OrderRecord>, payments: map<string, Payment>,
    n: string, row: OrderRecord)
    requires OrdersOk(customers, orders) && PaymentsOk(orders, payments)
    requires HasCustomer(customers, row.customer)
    ensures OrdersOk(customers, orders[n := row])
    ensures PaymentsOk(orders[n := row], payments[n := InitialPayment(n, row.totalCents)])
  {
    var orders' := orders[n := row];
    var payments' := payments[n := InitialPayment(n, row.totalCents)];
    forall m | m in orders' ensures HasCustomer(customers, orders'[m].customer) {
      if m != n { assert orders'[m] == orders[m]; }
    }
    assert payments'.Keys == orders'.Keys;
    forall m | m in payments' ensures payments'[m].order == m && payments'[m].amountCents == orders'[m].totalCents {
      if m != n { assert payments'[m] == payments[m] && orders'[m] == orders[m]; }
    }
  }

  /** The new order's lines keep the line-table constraints. */
  lemma PlacementKeepsLines(
    menu: seq<MenuItem>, orders: map<string, OrderRecord>, items: seq<OrderItem>,
    n: string, row: OrderRecord, created: seq<OrderItem>)
    requires LinesOk(menu, orders, items) && n !in orders
    requires DistinctMenuItems(created)
    requires forall k :: 0 <= k < |created| ==>
      created[k].order == n && ItemWithinBounds(created[k]) && HasMenuItem(menu, created[k].menuItem)
    ensures LinesOk(menu, orders[n := row], items + created)
  {
    var items' := items + created;
    assert UniqueOrderLines(items') by {
      forall i, j | 0 <= i < j < |items'|
        ensures items'[i].order != items'[j].order || items'[i].menuItem != items'[j].menuItem
      {
        if i >= |items| {
          assert items'[i] == created[i - |items|] && items'[j] == created[j - |items|];
        } else if j >= |items| {
          assert items'[i] == items[i] && items'[j] == created[j - |items|];
          assert items[i].order in orders;
        } else {
          assert items'[i] == items[i] && items'[j] == items[j];
        }
      }
    }
    forall i | 0 <= i < |items'|
      ensures items'[i].order in orders[n := row] && ItemWithinBounds(items'[i]) && HasMenuItem(menu, items'[i].menuItem)
    {
      if i >= |items| {
        assert items'[i] == created[i - |items|];
      } else {
        assert items'[i] == items[i];
      }
    }
  }

  /** The new order's totals hold over its lines, and no other order gains
      or loses a line. */
  lemma PlacementKeepsTotals(
    orders: map<string, OrderRecord>, items: seq<OrderItem>,
    n: string, row: OrderRecord, created: seq<OrderItem>)
    requires TotalsOk(orders, items) && n !in orders
    requires forall k :: 0 <= k < |items| ==> items[k].order in orders
    requires forall k :: 0 <= k < |created| ==> created[k].order == n
    requires TotalsHold(created, row)
    ensures TotalsOk(orders[n := row], items + created)
  {
    var orders' := orders[n := row];
    forall m | m in orders' ensures TotalsHold(ItemsOf(items + created, m), orders'[m]) {
      ItemsOfAppend(items, created, m);
      if m == n {
        ItemsOfAbsent(items, n);
        ItemsOfAll(created, n);
        assert ItemsOf(items + created, m) == created;
      } else {
        ItemsOfAbsent(created, m);
        assert ItemsOf(items + created, m) == ItemsOf(items, m);
      }
    }
  }

  /** The creation event opens the new order's audit trail and leaves every
      other order's trail as it was. */
  lemma PlacementKeepsEvents(
    orders: map<string, OrderRecord>, events: seq<StatusEvent>, now: nat,
    n: string, row: OrderRecord, event: StatusEvent)
    requires EventsOk(orders, events, now) && n !in orders
    requires row.status == Pending && event == StatusEvent(n, Pending, Pending, now)
    ensures EventsOk(orders[n := row], events + [event], now + 1)
  {
    AppendEventInOrder(events, event, now, orders[n := row].Keys);
    PlacementKeepsTrails(orders, events, n, row, event);
  }

  lemma PlacementKeepsTrails(
    orders: map<string, OrderRecord>, events: seq<StatusEvent>, n: string, row: OrderRecord, event: StatusEvent)
    requires TrailsOk(orders, events) && n !in orders
    requires forall k :: 0 <= k < |events| ==> events[k].order in orders
    requires row.status == Pending && event.order == n && event.fromStatus == Pending && event.toStatus == Pending
    ensures TrailsOk(orders[n := row], events + [event])
  {
    var orders' := orders[n := row];
    var events' := events + [event];
    forall m | m in orders' ensures AuditTrail(EventsOf(events', m), orders'[m].status) {
      EventsOfAppend(events, event, m);
      if m == n {
        EventsOfAbsent(events, n);
        assert EventsOf(events', m) == [event];
      } else {
        assert EventsOf(events', m) == EventsOf(events, m);
        assert orders'[m] == orders[m];
      }
    }
  }

  // ---------------------------------------------------------------------------
  // Changing an order's status

  datatype StatusError = InvalidChoice(value: string)

  /** `UpdateOrderStatusSerializer`: the value must be one of the seven
      choices; the same status changes nothing; otherwise the order takes the
      new status (only that column is saved) and exactly one event
      (old -> new) is appended. */
  method UpdateOrderStatus(db: Store, instance: Order, value: string) returns (r: Result<Status, StatusError>)
    requires db.Valid()
    requires instance.orderNumber in db.orders && db.orders[instance.orderNumber] == instance.Record()
    modifies db, instance
    ensures db.Valid()
    ensures instance.orderNumber in db.orders && db.orders[instance.orderNumber] == instance.Record()
    ensures r.Err? <==> value !in StatusValues
    ensures r.Ok? ==> StatusValue(r.value) == value && instance.status == r.value
    ensures r.Err? || r.value == old(instance.status) ==> unchanged(db) && unchanged(instance)
    ensures r.Ok? && r.value != old(instance.status) ==>
      && instance.Record() == old(instance.Record()).(status := r.value)
      && db.orders == old(db.orders)[instance.orderNumber := old(instance.Record()).(status := r.value)]
      && db.events == old(db.events) + [StatusEvent(instance.orderNumber, old(instance.status), r.value, old(db.clock))]
      && db.clock == old(db.clock) + 1
      && db.customers == old(db.customers) && db.orderItems == old(db.orderItems) && db.payments == old(db.payments)
      && db.categories == old(db.categories) && db.menuItems == old(db.menuItems)
  {
    var choice := ParseStatus(value);
    if choice.None? {
      return Err(InvalidChoice(value));
    }
    var newStatus := choice.value;
    var oldStatus := instance.status;
    if newStatus == oldStatus {
      return Ok(newStatus);
    }
    var marked := instance.MarkStatus(value);
    StatusValueRoundTrip(marked.value);
    assert instance.Record() == old(instance.Record()).(status := newStatus);
    var n := instance.orderNumber;
    var now := db.clock;
    TransitionKeepsConsistent(db.customers, db.menuItems, db.orders, db.orderItems, db.payments, db.events, now,
                              n, newStatus);
    db.Commit(db.orders[n := db.orders[n].(status := newStatus)], db.orderItems, db.payments,
              db.events + [StatusEvent(n, oldStatus, newStatus, now)], now + 1);
    r := Ok(newStatus);
  }

  /** A real status change of order `n`, saved with its (old -> new) event
      at `now`, keeps the tables consistent: only the status column changes,
      and the audit trail of `n` now ends in the new status. */
  lemma TransitionKeepsConsistent(
    customers: seq<Customer>, menu: seq<MenuItem>, orders: map<string, OrderRecord>, items: seq<OrderItem>,
    payments: map<string, Payment>, events: seq<StatusEvent>, now: nat,
    n: string, newStatus: Status)
    requires Consistent(customers, menu, orders, items, payments, events, now)
    requires n in orders && newStatus != orders[n].status
    ensures Consistent(customers, menu, orders[n := orders[n].(status := newStatus)], items, payments,
                       events + [StatusEvent(n, orders[n].status, newStatus, now)], now + 1)
  {
    TransitionKeepsRows(customers, menu, orders, items, payments, n, newStatus);
    TransitionKeepsAuditTrail(orders, events, now, n, newStatus);
  }

  /** Changing only the status column keeps every constraint that does not
      mention the status. */
  lemma TransitionKeepsRows(
    customers: seq<Customer>, menu: seq<MenuItem>, orders: map<string, OrderRecord>, items: seq<OrderItem>,
    payments: map<string, Payment>, n: string, newStatus: Status)
    requires n in orders
    requires OrdersOk(customers, orders) && LinesOk(menu, orders, items)
    requires TotalsOk(orders, items) && PaymentsOk(orders, payments)
    ensures var orders' := orders[n := orders[n].(status := newStatus)];
      OrdersOk(customers, orders') && LinesOk(menu, orders', items)
      && TotalsOk(orders', items) && PaymentsOk(orders', payments)
  {
    var orders' := orders[n := orders[n].(status := newStatus)];
    assert orders'.Keys == orders.Keys;
    forall m | m in orders'
      ensures orders'[m].customer == orders[m].customer && orders'[m].totalCents == orders[m].totalCents
      ensures TotalsHold(ItemsOf(items, m), orders'[m])
    {
    }
  }

  /** Appending the (old -> new) event for a real change keeps the log in
      time order and every order's audit trail ending in its current status. */
  lemma TransitionKeepsAuditTrail(
    orders: map<string, OrderRecord>, events: seq<StatusEvent>, now: nat, n: string, newStatus: Status)
    requires n in orders && newStatus != orders[n].status
    requires EventsOk(orders, events, now)
    ensures EventsOk(orders[n := orders[n].(status := newStatus)],
                     events + [StatusEvent(n, orders[n].status, newStatus, now)], now + 1)
  {
    var orders' := orders[n := orders[n].(status := newStatus)];
    assert orders'.Keys == orders.Keys;
    AppendEventInOrder(events, StatusEvent(n, orders[n].status, newStatus, now), now, orders.Keys);
    TransitionKeepsTrails(orders, events, n, newStatus, now);
  }

  lemma TransitionKeepsTrails(
    orders: map<string, OrderRecord>, events: seq<StatusEvent>, n: string, newStatus: Status, now: nat)
    requires n in orders && newStatus != orders[n].status
    requires TrailsOk(orders, events)
    ensures TrailsOk(orders[n := orders[n].(status := newStatus)],
                     events + [StatusEvent(n, orders[n].status, newStatus, now)])
  {
    var orders' := orders[n := orders[n].(status := newStatus)];
    var event := StatusEvent(n, orders[n].status, newStatus, now);
    var events' := events + [event];
    forall m | m in orders' ensures AuditTrail(EventsOf(events', m), orders'[m].status) {
      EventsOfAppend(events, event, m);
      if m != n {
        assert EventsOf(events', m) == EventsOf(events, m);
        assert orders'[m] == orders[m];
      } else {
        AuditTrailExtend(EventsOf(events, n), orders[n].status, event);
      }
    }
  }
}
