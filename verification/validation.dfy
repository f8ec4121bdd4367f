/** Request validation: the structural predicates on raw JSON values
    (`verifyStoreItem`, `verifyPaymentMethod`, `verifyStoreItemWithAmounts`,
    `verifyOrderRequest`), payment-method validation and the resolution of
    a raw item list against the catalog (`validateOrderItems`). */
module Validation {
  import opened Wrappers
  import opened Errors
  import opened OrderTypes
  import Js
  import Decimal
  import Uuid

  // ---------------------------------------------------------------------
  // Structural predicates
  // ---------------------------------------------------------------------

  /** `verifyStoreItem(data, id)`. A null `data` passes the `typeof` test and
      then throws when its `name` is read. */
  function VerifyStoreItem(data: Js.Value, idFlag: bool): (r: Result<bool, Error>)
    ensures Js.TypeOf(data) != Js.TObject ==> r == Success(false)
    ensures r.Failure? <==> data.Null?
    ensures r == Success(true) ==> !Js.Nullish(data)
    ensures r == Success(true) ==> Js.Field(data, "name").Str? && Js.Field(data, "price").Number?
    ensures r == Success(true) ==> Js.Field(data, "description").Undefined? || Js.Field(data, "description").Str?
    ensures r == Success(true) ==> Js.Field(data, "image").Undefined? || Js.Field(data, "image").Str?
    ensures r == Success(true) ==> Js.TypeOf(Js.Field(data, "options")) == Js.TObject
    ensures idFlag && r == Success(true) ==> Js.Field(data, "id").Str? && !Uuid.ValidUUID(Js.Field(data, "id").s)
    ensures Js.TypeOf(data) == Js.TObject && !data.Null?
            && Js.Field(data, "name").Str? && Js.Field(data, "price").Number?
            && (Js.Field(data, "description").Undefined? || Js.Field(data, "description").Str?)
            && (Js.Field(data, "image").Undefined? || Js.Field(data, "image").Str?)
            && Js.TypeOf(Js.Field(data, "options")) == Js.TObject
            && !(idFlag && (!Js.Field(data, "id").Str? || Uuid.ValidUUID(Js.Field(data, "id").s)))
      ==> r == Success(true)
  {
    if Js.TypeOf(data) != Js.TObject then Success(false)
    else if data.Null? then Failure(NullishAccess)
    else
      var id := Js.Field(data, "id");
      Success(
        && Js.Field(data, "name").Str?
        && Js.Field(data, "price").Number?
        && (Js.Field(data, "description").Undefined? || Js.Field(data, "description").Str?)
        && (Js.Field(data, "image").Undefined? || Js.Field(data, "image").Str?)
        // `typeof data.options` is a non-empty string, hence always truthy
        && Js.TypeOf(Js.Field(data, "options")) == Js.TObject
        && !(idFlag && (!id.Str? || Uuid.ValidUUID(id.s))))
  }

  /** `verifyPaymentMethod`: a number that is one of the method codes. */
  function VerifyPaymentMethod(data: Js.Value): (r: bool)
    ensures r <==> exists m :: data == Js.Number(MethodCode(m))
  {
    if data.Number? && MethodOfCode(data.n).Some? then
      assert data == Js.Number(MethodCode(MethodOfCode(data.n).value));
      true
    else
      assert forall m :: MethodOfCode(MethodCode(m)) == Some(m) by {
        forall m { MethodCodeRoundTrip(m); }
      }
      false
  }

  /** `verifyStoreItemWithAmounts`. */
  function VerifyStoreItemWithAmounts(data: Js.Value): (r: Result<bool, Error>)
    ensures r.Failure? <==> data.Null?
    ensures r == Success(true) <==>
      VerifyStoreItem(data, false) == Success(true) && !Js.Nullish(data) && Js.Field(data, "amounts").Number?
  {
    if Js.TypeOf(data) != Js.TObject then Success(false)
    else match VerifyStoreItem(data, false)
      case Failure(e) => Failure(e)
      case Success(ok) => Success(ok && Js.Field(data, "amounts").Number?)
  }

  /** One entry of a raw order request: a two-element `[number, string]` array. */
  predicate IsPair(v: Js.Value) {
    v.Array? && |v.elems| == 2 && v.elems[0].Number? && v.elems[1].Str?
  }

  /** `verifyOrderRequest`. */
  function VerifyOrderRequest(data: Js.Value): (r: Result<bool, Error>)
    ensures r.Failure? <==> data.Null?
    ensures r == Success(true) <==>
      && (data.Array? || data.Object?)
      && (exists m :: Js.Field(data, "payWith") == Js.Number(MethodCode(m)))
      && Js.Field(data, "items").Array?
      && forall i :: 0 <= i < |Js.Field(data, "items").elems| ==> IsPair(Js.Field(data, "items").elems[i])
  {
    if Js.TypeOf(data) != Js.TObject then Success(false)
    else if data.Null? then Failure(NullishAccess)
    else
      var payWith := Js.Field(data, "payWith");
      var items := Js.Field(data, "items");
      Success(
        && payWith.Number?
        && VerifyPaymentMethod(payWith)
        && items.Array?
        && forall i :: 0 <= i < |items.elems| ==> IsPair(items.elems[i]))
  }

  // ---------------------------------------------------------------------
  // Payment method
  // ---------------------------------------------------------------------

  /** `validatePayMethod`: `Number(payWith)` must be one of the method codes. */
  function ValidatePayMethod(payWith: Js.Value): (r: Result<PaymentMethod, Error>)
    ensures Js.Nullish(payWith) ==> r == Failure(PayMethodMissing)
    ensures r.Success? ==> Js.ToNumber(payWith) == Decimal.Int(MethodCode(r.value))
    ensures !Js.Nullish(payWith) && r.Failure? ==> r.error == PayMethodInvalid
  {
    if Js.Nullish(payWith) then Failure(PayMethodMissing)
    else match Js.ToNumber(payWith)
      case NaN => Failure(PayMethodInvalid)
      case Int(n) =>
        match MethodOfCode(n)
        case None => Failure(PayMethodInvalid)
        case Some(m) => Success(m)
  }

  /** A value is accepted exactly when it is not null or undefined and its
      numeric value is one of the five method codes. */
  lemma ValidatePayMethodIff(payWith: Js.Value)
    ensures ValidatePayMethod(payWith).Success? <==>
      !Js.Nullish(payWith) && exists m :: Js.ToNumber(payWith) == Decimal.Int(MethodCode(m))
  {
    if !Js.Nullish(payWith) && exists m :: Js.ToNumber(payWith) == Decimal.Int(MethodCode(m)) {
      var m :| Js.ToNumber(payWith) == Decimal.Int(MethodCode(m));
      MethodCodeRoundTrip(m);
    }
  }

  /** On numbers, `validatePayMethod` and `verifyPaymentMethod` agree; on the
      decimal text of a code, `validatePayMethod` yields that method. */
  lemma ValidatePayMethodAgrees(n: int, m: PaymentMethod)
    ensures ValidatePayMethod(Js.Number(n)).Success? <==> VerifyPaymentMethod(Js.Number(n))
    ensures ValidatePayMethod(Js.Str(Decimal.IntToString(MethodCode(m)))) == Success(m)
  {
    ValidatePayMethodIff(Js.Number(n));
    Decimal.IntToStringRoundTrip(MethodCode(m));
    MethodCodeRoundTrip(m);
  }

  // ---------------------------------------------------------------------
  // Item list
  // ---------------------------------------------------------------------

  /** An entry whose `[0]` is a number and whose `[1]` is a string. */
  predicate WellShaped(e: Js.Value) {
    !Js.Nullish(e) && Js.Elem(e, 0).Number? && Js.Elem(e, 1).Str?
  }

  function QuantityOf(e: Js.Value): int
    requires WellShaped(e)
  {
    Js.Elem(e, 0).n
  }

  function ItemIdOf(e: Js.Value): string
    requires WellShaped(e)
  {
    Js.Elem(e, 1).s
  }

  /** The loop of `validateOrderItems` from a given entry on, with `seen`
      the ids already recorded. Each entry is checked in source order:
      shape, zero quantity, repetition, catalog lookup. */
  function CheckEntries(entries: seq<Js.Value>, catalog: Catalog, seen: set<string>): Result<seq<ItemWithAmount>, Error>
    decreases |entries|
  {
    if entries == [] then Success([])
    else
      var e := entries[0];
      if Js.Nullish(e) then Failure(NullishAccess)
      else if !WellShaped(e) then Failure(BadItemEntry)
      else if QuantityOf(e) == 0 then Failure(ZeroQuantity)
      else if ItemIdOf(e) in seen then Failure(DuplicateItem(ItemIdOf(e)))
      else if ItemIdOf(e) !in catalog then Failure(UnknownItem(ItemIdOf(e)))
      else
        var item := catalog[ItemIdOf(e)];
        match CheckEntries(entries[1..], catalog, seen + {item.id})
        case Failure(err) => Failure(err)
        case Success(rest) => Success([ItemWithAmount(item, QuantityOf(e))] + rest)
  }

  function LineTotal(line: ItemWithAmount): int {
    line.amount * line.item.price
  }

  /** Sum of `amount * price` over the lines, folded from the left as
      `reduce` does. */
  function TotalPrice(lines: seq<ItemWithAmount>): int {
    if lines == [] then 0
    else TotalPrice(lines[..|lines| - 1]) + LineTotal(lines[|lines| - 1])
  }

  /** `validateOrderItems(items, payWith)`. */
  function ValidateOrderItems(items: Js.Value, payWith: PaymentMethod, catalog: Catalog): (r: Result<VerifiedRequest, Error>)
    ensures Js.TypeOf(items) != Js.TObject || items.Null? ==> r == Failure(ItemsNotObject)
    ensures items.Object? ==> r == Failure(ItemsNotArray)
    ensures r.Success? ==> items.Array? && r.value.payWith == payWith
    ensures r.Success? ==> r.value.price == TotalPrice(r.value.items)
  {
    if Js.Nullish(items) || Js.TypeOf(items) != Js.TObject then Failure(ItemsNotObject)
    else if !items.Array? then Failure(ItemsNotArray)
    else match CheckEntries(items.elems, catalog, {})
      case Failure(e) => Failure(e)
      case Success(lines) => Success(VerifiedRequest(TotalPrice(lines), payWith, lines))
  }

  /** Entries that pass: every one well-shaped, with a non-zero quantity, an
      id in the catalog and not among `seen`, and no id repeated. */
  predicate AcceptableEntries(entries: seq<Js.Value>, catalog: Catalog, seen: set<string>) {
    && (forall k :: 0 <= k < |entries| ==>
          WellShaped(entries[k]) && QuantityOf(entries[k]) != 0
          && ItemIdOf(entries[k]) in catalog && ItemIdOf(entries[k]) !in seen)
    && (forall j, k :: 0 <= j < k < |entries| ==> ItemIdOf(entries[j]) != ItemIdOf(entries[k]))
  }

  /** Each line is the catalog copy of the requested item with the requested quantity. */
  predicate LinesMatch(lines: seq<ItemWithAmount>, entries: seq<Js.Value>, catalog: Catalog)
    requires forall k :: 0 <= k < |entries| ==> WellShaped(entries[k]) && ItemIdOf(entries[k]) in catalog
  {
    && |lines| == |entries|
    && forall k :: 0 <= k < |entries| ==>
         lines[k] == ItemWithAmount(catalog[ItemIdOf(entries[k])], QuantityOf(entries[k]))
  }

  lemma {:induction false} CheckEntriesSpec(entries: seq<Js.Value>, catalog: Catalog, seen: set<string>)
    requires WellFormedCatalog(catalog)
    ensures CheckEntries(entries, catalog, seen).Success? <==> AcceptableEntries(entries, catalog, seen)
    ensures CheckEntries(entries, catalog, seen).Success? ==>
      LinesMatch(CheckEntries(entries, catalog, seen).value, entries, catalog)
    decreases |entries|
  {
    if entries == [] {
      return;
    }
    var e := entries[0];
    if !WellShaped(e) || QuantityOf(e) == 0 || ItemIdOf(e) in seen || ItemIdOf(e) !in catalog {
      assert !AcceptableEntries(entries, catalog, seen);
      return;
    }
    var id := ItemIdOf(e);
    var rest := entries[1..];
    var seen' := seen + {catalog[id].id};
    assert seen' == seen + {id};
    CheckEntriesSpec(rest, catalog, seen');
    if AcceptableEntries(entries, catalog, seen) {
      forall k | 0 <= k < |rest|
        ensures ItemIdOf(rest[k]) !in seen'
      {
        assert rest[k] == entries[k + 1];
        assert ItemIdOf(entries[0]) != ItemIdOf(entries[k + 1]);
      }
      forall j, k | 0 <= j < k < |rest|
        ensures ItemIdOf(rest[j]) != ItemIdOf(rest[k])
      {
        assert rest[j] == entries[j + 1] && rest[k] == entries[k + 1];
      }
      assert AcceptableEntries(rest, catalog, seen');
    }
    if AcceptableEntries(rest, catalog, seen') {
      forall k | 0 <= k < |entries|
        ensures WellShaped(entries[k]) && QuantityOf(entries[k]) != 0
        ensures ItemIdOf(entries[k]) in catalog && ItemIdOf(entries[k]) !in seen
      {
        if k > 0 { assert entries[k] == rest[k - 1]; }
      }
      forall j, k | 0 <= j < k < |entries|
        ensures ItemIdOf(entries[j]) != ItemIdOf(entries[k])
      {
        assert entries[k] == rest[k - 1];
        if j > 0 { assert entries[j] == rest[j - 1]; }
      }
      var lines := CheckEntries(entries, catalog, seen).value;
      var restLines := CheckEntries(rest, catalog, seen').value;
      assert lines == [ItemWithAmount(catalog[id], QuantityOf(e))] + restLines;
      forall k | 0 <= k < |entries|
        ensures lines[k] == ItemWithAmount(catalog[ItemIdOf(entries[k])], QuantityOf(entries[k]))
      {
        if k > 0 { assert entries[k] == rest[k - 1]; }
      }
    }
  }

  /** With a catalog whose entries carry their own keys as ids, an item list
      is accepted exactly when it is an array of well-shaped entries with
      non-zero quantities, known ids and no id twice. The result keeps the
      request order, copies each catalog item with its quantity, keeps the
      payment method and prices the order at the sum of the line totals. */
  lemma ValidateOrderItemsSpec(items: Js.Value, payWith: PaymentMethod, catalog: Catalog)
    requires WellFormedCatalog(catalog)
    ensures ValidateOrderItems(items, payWith, catalog).Success? <==>
      items.Array? && AcceptableEntries(items.elems, catalog, {})
    ensures ValidateOrderItems(items, payWith, catalog).Success? ==>
      var req := ValidateOrderItems(items, payWith, catalog).value;
      && LinesMatch(req.items, items.elems, catalog)
      && req.payWith == payWith
      && req.price == TotalPrice(req.items)
  {
    if items.Array? {
      CheckEntriesSpec(items.elems, catalog, {});
    }
  }

  /** Whatever the catalog, an entry that is malformed, has quantity exactly
      0 or names an unknown item makes the whole list fail. */
  lemma {:induction false} BadEntryRejected(entries: seq<Js.Value>, catalog: Catalog, seen: set<string>, k: nat)
    requires k < |entries|
    requires !WellShaped(entries[k]) || QuantityOf(entries[k]) == 0 || ItemIdOf(entries[k]) !in catalog
    ensures CheckEntries(entries, catalog, seen).Failure?
    decreases k
  {
    if k > 0 {
      var e := entries[0];
      if WellShaped(e) && QuantityOf(e) != 0 && ItemIdOf(e) !in seen && ItemIdOf(e) in catalog {
        assert entries[1..][k - 1] == entries[k];
        BadEntryRejected(entries[1..], catalog, seen + {catalog[ItemIdOf(e)].id}, k - 1);
      }
    }
  }

  /** Only a quantity of exactly zero is refused: a negative quantity of a
      known item is accepted and priced negatively. */
  lemma NegativeQuantityAccepted(id: string, q: int, payWith: PaymentMethod, catalog: Catalog)
    requires id in catalog && q < 0
    ensures ValidateOrderItems(Js.Array([Js.Array([Js.Number(q), Js.Str(id)])]), payWith, catalog)
      == Success(VerifiedRequest(q * catalog[id].price, payWith, [ItemWithAmount(catalog[id], q)]))
  {
    var entries := [Js.Array([Js.Number(q), Js.Str(id)])];
    assert WellShaped(entries[0]) && QuantityOf(entries[0]) == q && ItemIdOf(entries[0]) == id;
    assert entries[1..] == [];
    assert CheckEntries(entries[1..], catalog, {} + {catalog[id].id}) == Success([]);
    var lines := [ItemWithAmount(catalog[id], q)];
    assert !Js.Nullish(entries[0]) && id !in {} && id in catalog;
    assert [ItemWithAmount(catalog[id], q)] + [] == lines;
    assert CheckEntries(entries, catalog, {}) == Success(lines);
    assert lines[..0] == [];
    assert TotalPrice(lines) == q * catalog[id].price;
  }

  // ---------------------------------------------------------------------
  // Catalog items as JSON, and the corrected structural predicates
  // ---------------------------------------------------------------------

  /** Sets `key` when a value is present. */
  function WithField(m: map<string, Js.Value>, key: string, v: Option<Js.Value>): (r: map<string, Js.Value>)
    ensures key in r <==> key in m || v.Some?
    ensures v.Some? ==> r[key] == v.value
    ensures key in m && v.None? ==> r[key] == m[key]
  {
    if v.Some? then m[key := v.value] else m
  }

  function TextValue(v: Option<string>): (r: Option<Js.Value>)
    ensures r.Some? <==> v.Some?
    ensures r.Some? ==> r.value.Str?
  {
    if v.Some? then Some(Js.Str(v.value)) else None
  }

  function OptionsJson(opts: map<string, OptionValue>): (r: Js.Value)
    ensures r.Object?
  {
    Js.Object(map k | k in opts :: match opts[k]
      case OptText(t) => Js.Str(t)
      case OptNumber(n) => Js.Number(n))
  }

  /** The id, name, price, description and image fields of a catalog item. */
  function TextFields(item: StoreItem): (m: map<string, Js.Value>)
    ensures "name" in m && m["name"] == Js.Str(item.name)
    ensures "price" in m && m["price"] == Js.Number(item.price)
    ensures "id" in m && m["id"] == Js.Str(item.id)
    ensures "description" in m ==> m["description"].Str?
    ensures "image" in m ==> m["image"].Str?
    ensures "options" !in m && "amounts" !in m && "amount" !in m
  {
    var base := map["id" := Js.Str(item.id), "name" := Js.Str(item.name), "price" := Js.Number(item.price)];
    assert "description" !in base && "image" !in base && "options" !in base;
    assert "amounts" !in base && "amount" !in base;
    var m1 := WithField(base, "description", TextValue(item.description));
    assert m1["name"] == base["name"] && m1["price"] == base["price"] && m1["id"] == base["id"];
    assert "image" !in m1 && "options" !in m1 && "amounts" !in m1 && "amount" !in m1;
    var m2 := WithField(m1, "image", TextValue(item.image));
    assert m2["name"] == m1["name"] && m2["price"] == m1["price"] && m2["id"] == m1["id"];
    assert "description" in m2 ==> m2["description"] == m1["description"];
    m2
  }

  /** The JSON object a catalog item is stored as. */
  function ItemFields(item: StoreItem): (m: map<string, Js.Value>)
    ensures "name" in m && m["name"] == Js.Str(item.name)
    ensures "price" in m && m["price"] == Js.Number(item.price)
    ensures "id" in m && m["id"] == Js.Str(item.id)
    ensures "description" in m ==> m["description"].Str?
    ensures "image" in m ==> m["image"].Str?
    ensures "options" in m <==> item.options.Some?
    ensures "options" in m ==> m["options"].Object?
    ensures "amounts" !in m && "amount" !in m
  {
    var m2 := TextFields(item);
    var m3 := WithField(m2, "discount", if item.discount.Some? then Some(Js.Number(item.discount.value)) else None);
    assert m3["name"] == m2["name"] && m3["price"] == m2["price"] && m3["id"] == m2["id"];
    assert "description" in m3 ==> m3["description"] == m2["description"];
    assert "image" in m3 ==> m3["image"] == m2["image"];
    assert "options" !in m3 && "amounts" !in m3 && "amount" !in m3;
    var m4 := WithField(m3, "options", if item.options.Some? then Some(OptionsJson(item.options.value)) else None);
    assert m4["name"] == m3["name"] && m4["price"] == m3["price"] && m4["id"] == m3["id"];
    assert "description" in m4 ==> m4["description"] == m3["description"];
    assert "image" in m4 ==> m4["image"] == m3["image"];
    m4
  }

  function ItemJson(item: StoreItem): Js.Value {
    Js.Object(ItemFields(item))
  }

  /** The JSON object of an order line: the item's fields plus `amount`. */
  function ItemWithAmountJson(line: ItemWithAmount): Js.Value {
    Js.Object(ItemFields(line.item)["amount" := Js.Number(line.amount)])
  }

  lemma ItemJsonFields(item: StoreItem)
    ensures Js.Field(ItemJson(item), "name") == Js.Str(item.name)
    ensures Js.Field(ItemJson(item), "price") == Js.Number(item.price)
    ensures Js.Field(ItemJson(item), "id") == Js.Str(item.id)
    ensures Js.Field(ItemJson(item), "description").Undefined? || Js.Field(ItemJson(item), "description").Str?
    ensures Js.Field(ItemJson(item), "image").Undefined? || Js.Field(ItemJson(item), "image").Str?
    ensures Js.Field(ItemJson(item), "options").Undefined? <==> item.options.None?
    ensures item.options.Some? ==> Js.Field(ItemJson(item), "options").Object?
    ensures Js.Field(ItemJson(item), "amounts").Undefined?
  {
  }

  /** On the JSON of a catalog item, `verifyStoreItem` holds exactly when the
      item has options and, with the id flag, its id is NOT a valid UUID. */
  lemma VerifyStoreItemOnCatalogItems(item: StoreItem, idFlag: bool)
    ensures VerifyStoreItem(ItemJson(item), idFlag) ==
      Success(item.options.Some? && (!idFlag || !Uuid.ValidUUID(item.id)))
  {
    ItemJsonFields(item);
  }

  /** A catalog item without options is refused. */
  lemma MissingOptionsRejected(item: StoreItem, idFlag: bool)
    requires item.options.None?
    ensures VerifyStoreItem(ItemJson(item), idFlag) == Success(false)
  {
    VerifyStoreItemOnCatalogItems(item, idFlag);
  }

  /** With the id flag, a catalog item whose id is a well-formed UUID is refused. */
  lemma UuidIdRejected(item: StoreItem)
    requires Uuid.ValidUUID(item.id)
    ensures VerifyStoreItem(ItemJson(item), true) == Success(false)
  {
    VerifyStoreItemOnCatalogItems(item, true);
  }

  /** The same JSON of an order line always fails
      `verifyStoreItemWithAmounts`, which reads `amounts` rather than the
      `amount` field the line carries. */
  lemma ItemWithAmountRejected(line: ItemWithAmount)
    ensures VerifyStoreItemWithAmounts(ItemWithAmountJson(line)) == Success(false)
  {
    var data := ItemWithAmountJson(line);
    assert Js.Field(data, "amounts").Undefined?;
  }

  /** `verifyStoreItem` with the evident intent: `options` either absent or
      an object, like `description` and `image` either absent or a string,
      and a well-formed UUID required when the id flag is set. */
  function VerifyStoreItemIntended(data: Js.Value, idFlag: bool): (r: Result<bool, Error>)
    ensures r.Failure? <==> data.Null?
    ensures r == Success(true) ==> !Js.Nullish(data) && Js.Field(data, "name").Str? && Js.Field(data, "price").Number?
    ensures idFlag && r == Success(true) ==> Js.Field(data, "id").Str? && Uuid.ValidUUID(Js.Field(data, "id").s)
    ensures r == Success(true) ==>
      && (Js.Field(data, "description").Undefined? || Js.Field(data, "description").Str?)
      && (Js.Field(data, "image").Undefined? || Js.Field(data, "image").Str?)
      && (Js.Field(data, "options").Undefined? || Js.TypeOf(Js.Field(data, "options")) == Js.TObject)
    ensures Js.TypeOf(data) == Js.TObject && !data.Null?
            && Js.Field(data, "name").Str? && Js.Field(data, "price").Number?
            && (Js.Field(data, "description").Undefined? || Js.Field(data, "description").Str?)
            && (Js.Field(data, "image").Undefined? || Js.Field(data, "image").Str?)
            && (Js.Field(data, "options").Undefined? || Js.TypeOf(Js.Field(data, "options")) == Js.TObject)
            && !(idFlag && (!Js.Field(data, "id").Str? || !Uuid.ValidUUID(Js.Field(data, "id").s)))
      ==> r == Success(true)
  {
    if Js.TypeOf(data) != Js.TObject then Success(false)
    else if data.Null? then Failure(NullishAccess)
    else
      var id := Js.Field(data, "id");
      var options := Js.Field(data, "options");
      Success(
        && Js.Field(data, "name").Str?
        && Js.Field(data, "price").Number?
        && (Js.Field(data, "description").Undefined? || Js.Field(data, "description").Str?)
        && (Js.Field(data, "image").Undefined? || Js.Field(data, "image").Str?)
        && (options.Undefined? || Js.TypeOf(options) == Js.TObject)
        && !(idFlag && (!id.Str? || !Uuid.ValidUUID(id.s))))
  }

  /** `verifyStoreItemWithAmounts` reading the `amount` field, on top of the
      corrected item check. */
  function VerifyStoreItemWithAmountsIntended(data: Js.Value): (r: Result<bool, Error>)
    ensures r.Failure? <==> data.Null?
    ensures r == Success(true) <==>
      VerifyStoreItemIntended(data, false) == Success(true) && !Js.Nullish(data) && Js.Field(data, "amount").Number?
  {
    if Js.TypeOf(data) != Js.TObject then Success(false)
    else match VerifyStoreItemIntended(data, false)
      case Failure(e) => Failure(e)
      case Success(ok) => Success(ok && Js.Field(data, "amount").Number?)
  }

  /** Every catalog item passes the corrected check, with or without
      options; with the id flag it passes exactly when its id is a UUID. */
  lemma IntendedAcceptsCatalogItems(item: StoreItem, idFlag: bool)
    ensures VerifyStoreItemIntended(ItemJson(item), idFlag) == Success(!idFlag || Uuid.ValidUUID(item.id))
  {
    ItemJsonFields(item);
  }

  /** Every order line passes the corrected amount check. */
  lemma IntendedAcceptsItemWithAmount(line: ItemWithAmount)
    ensures VerifyStoreItemWithAmountsIntended(ItemWithAmountJson(line)) == Success(true)
  {
    var data := ItemWithAmountJson(line);
    ItemJsonFields(line.item);
    assert Js.Field(data, "name") == Js.Field(ItemJson(line.item), "name");
    assert Js.Field(data, "price") == Js.Field(ItemJson(line.item), "price");
    assert Js.Field(data, "description") == Js.Field(ItemJson(line.item), "description");
    assert Js.Field(data, "image") == Js.Field(ItemJson(line.item), "image");
    assert Js.Field(data, "options") == Js.Field(ItemJson(line.item), "options");
  }

  /** A request that passes `verifyOrderRequest` passes the payment-method
      validation, and its item list can then only fail on quantity zero, a
      repeated id or an unknown id. */
  lemma VerifiedRequestPassesShapeChecks(data: Js.Value, catalog: Catalog)
    requires VerifyOrderRequest(data) == Success(true)
    ensures ValidatePayMethod(Js.Field(data, "payWith")).Success?
    ensures var r := ValidateOrderItems(Js.Field(data, "items"), Card, catalog);
      r.Failure? ==> r.error.ZeroQuantity? || r.error.DuplicateItem? || r.error.UnknownItem?
  {
    var m :| Js.Field(data, "payWith") == Js.Number(MethodCode(m));
    MethodCodeRoundTrip(m);
    var items := Js.Field(data, "items");
    PairEntriesOnlyFailOnContent(items.elems, catalog, {});
  }

  lemma {:induction false} PairEntriesOnlyFailOnContent(entries: seq<Js.Value>, catalog: Catalog, seen: set<string>)
    requires forall i :: 0 <= i < |entries| ==> IsPair(entries[i])
    ensures var r := CheckEntries(entries, catalog, seen);
      r.Failure? ==> r.error.ZeroQuantity? || r.error.DuplicateItem? || r.error.UnknownItem?
    decreases |entries|
  {
    if entries != [] {
      var e := entries[0];
      assert IsPair(e);
      assert WellShaped(e);
      if QuantityOf(e) != 0 && ItemIdOf(e) !in seen && ItemIdOf(e) in catalog {
        var rest := entries[1..];
        forall i | 0 <= i < |rest|
          ensures IsPair(rest[i])
        {
          assert rest[i] == entries[i + 1];
        }
        PairEntriesOnlyFailOnContent(rest, catalog, seen + {catalog[ItemIdOf(e)].id});
      }
    }
  }
}
