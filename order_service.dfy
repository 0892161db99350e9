/** OrderAPIService.PlaceOrder of internal/services/api_order_service.go:
    a fixed sequence of early-return checks (coupon length, coupon search
    set-up, each item's quantity and product, the coupon verdict, the
    order insert) followed by the response. The coupon DAO, the search
    result, the product DAO and the order DAO are oracles: a Backend value
    says what each of them answers, and the model records, in order, the
    calls PlaceOrder makes on them. */
module OrderService {
  import opened Common

  /** A Go `int32`. */
  type Int32 = x: int | -0x8000_0000 <= x < 0x8000_0000

  /** openapi.OrderReqItemsInner, openapi.OrderItemsInner and db.Item all
      have the same two fields, so one datatype stands for the three. */
  datatype Item = Item(productId: string, quantity: Int32)

  /** db.Product and openapi.Product both have these four fields. The price
      is a Go `float32` that is only copied, so a real stands for it. */
  datatype Product = Product(id: string, name: string, price: real, category: string)

  datatype OrderReq = OrderReq(couponCode: string, items: seq<Item>)

  /** db.Order, the row handed to OrderDao.CreateOrder. */
  datatype DbOrder = DbOrder(id: string, items: seq<Item>)

  /** openapi.Order, the body of a successful response. */
  datatype Order = Order(id: string, items: seq<Item>, products: seq<Product>)

  datatype Body = NoBody | Message(text: string) | OrderBody(order: Order)

  /** openapi.ImplResponse: a status code and a body. */
  datatype Response = Response(code: int, body: Body)

  /** openapi.ImplResponse{}: code 0 and no body. */
  const Empty := Response(0, NoBody)

  const StatusOK := 200
  const StatusBadRequest := 400
  const StatusUnprocessableEntity := 422

  const InvalidCoupon := "invalid coupon code"
  const InvalidQuantity := "quantity must be greater than zero"
  const InvalidProduct := "invalid product specified"

  /** What CouponDao.SearchForCouponInGivenFiles answers: a set-up error,
      or a search result whose Validate will return `verdict`. */
  datatype CouponSearch = SetupFailed(setupError: Error) | Started(verdict: Result<bool>)

  /** The answers of the collaborators of PlaceOrder. GetProduct succeeds
      exactly for the ids in `catalog`; `orderId` is what uuid.New()
      produced; `createOrder` is the error CreateOrder returns, if any. */
  datatype Backend = Backend(
    search: CouponSearch,
    catalog: map<string, Product>,
    orderId: string,
    createOrder: Option<Error>)

  /** A call PlaceOrder makes on a collaborator. */
  datatype Call =
    | SearchCall                      // couponDao.SearchForCouponInGivenFiles
    | GetProductCall(id: string)      // productDao.GetProduct
    | ValidateCall                    // searchResult.Validate
    | CreateOrderCall(order: DbOrder) // orderDao.CreateOrder

  /** What PlaceOrder returns, and the calls it made on the way. */
  datatype Outcome = Outcome(response: Response, error: Option<Error>, calls: seq<Call>)

  /** How many bytes the UTF-8 encoding of a character takes. */
  function Utf8Width(c: char): (w: nat)
    ensures 1 <= w <= 4
    ensures w == 1 <==> (c as int) < 0x80
  {
    if (c as int) < 0x80 then 1
    else if (c as int) < 0x800 then 2
    else if (c as int) < 0x1_0000 then 3
    else 4
  }

  /** Go's `len` of a string: the length of its UTF-8 encoding. */
  function ByteLength(s: string): (n: nat)
    ensures |s| <= n <= 4 * |s|
    ensures (forall i :: 0 <= i < |s| ==> (s[i] as int) < 0x80) ==> n == |s|
  {
    if |s| == 0 then 0 else Utf8Width(s[0]) + ByteLength(s[1..])
  }

  /** The byte length of a string is the byte lengths of its two parts. */
  lemma {:induction false} ByteLengthAppend(s: string, t: string)
    ensures ByteLength(s + t) == ByteLength(s) + ByteLength(t)
    decreases |s|
  {
    if |s| > 0 {
      assert (s + t)[0] == s[0];
      assert (s + t)[1..] == s[1..] + t;
      ByteLengthAppend(s[1..], t);
    } else {
      assert s + t == t;
    }
  }

  /** A string with a non-ASCII character is longer in bytes than in
      characters, so Go's `len` and the character count differ on it. */
  lemma {:induction false} ByteLengthNonAscii(s: string, i: nat)
    requires i < |s| && (s[i] as int) >= 0x80
    ensures ByteLength(s) > |s|
    decreases i
  {
    if i > 0 {
      assert s[1..][i - 1] == s[i];
      ByteLengthNonAscii(s[1..], i - 1);
    }
  }

  /** Whether the coupon code passes the length gate: 8 to 10 bytes. */
  predicate CouponLengthOk(code: string) {
    8 <= ByteLength(code) <= 10
  }

  /** The test's coupons: "SHORT" is five bytes and fails the gate,
      "HAPPYHOURS" is ten and passes it. */
  lemma TestCouponLengths()
    ensures ByteLength("SHORT") == 5 && !CouponLengthOk("SHORT")
    ensures ByteLength("HAPPYHOURS") == 10 && CouponLengthOk("HAPPYHOURS")
  {
  }

  /** The message of the first per-item check that an item fails. */
  function Fault(item: Item): string {
    if item.quantity <= 0 then InvalidQuantity else InvalidProduct
  }

  /** The calls made for an item that fails a check: the quantity check
      comes before the lookup, the product check after it. */
  function FaultCalls(item: Item): seq<Call> {
    if item.quantity <= 0 then [] else [GetProductCall(item.productId)]
  }

  /** The products looked up for items that all pass their checks. */
  function Lookups(items: seq<Item>, catalog: map<string, Product>): (products: seq<Product>)
    requires forall i :: 0 <= i < |items| ==> items[i].productId in catalog
    ensures |products| == |items|
    ensures forall i :: 0 <= i < |items| ==> products[i] == catalog[items[i].productId]
  {
    if |items| == 0 then [] else [catalog[items[0].productId]] + Lookups(items[1..], catalog)
  }

  /** One GetProduct call per item, in item order. */
  function LookupCalls(items: seq<Item>): (calls: seq<Call>)
    ensures |calls| == |items|
    ensures forall i :: 0 <= i < |items| ==> calls[i] == GetProductCall(items[i].productId)
  {
    if |items| == 0 then [] else [GetProductCall(items[0].productId)] + LookupCalls(items[1..])
  }

  /** Where the item loop of PlaceOrder ends: rejected with a message, or
      through with the looked-up products. Both carry the GetProduct calls
      made. */
  datatype ItemsOutcome =
    | Rejected(message: string, lookups: seq<Call>)
    | Accepted(products: seq<Product>, lookups: seq<Call>)

  /** The item loop from item `k` on, with the products and calls of the
      items before it. */
  function CheckLoop(items: seq<Item>, catalog: map<string, Product>, k: nat,
                     products: seq<Product>, lookups: seq<Call>): ItemsOutcome
    requires k <= |items|
    decreases |items| - k
  {
    if k == |items| then Accepted(products, lookups)
    else if items[k].quantity <= 0 then Rejected(InvalidQuantity, lookups)
    else if items[k].productId !in catalog then
      Rejected(InvalidProduct, lookups + [GetProductCall(items[k].productId)])
    else
      CheckLoop(items, catalog, k + 1, products + [catalog[items[k].productId]],
                lookups + [GetProductCall(items[k].productId)])
  }

  /** The item loop of PlaceOrder over a whole request. */
  function CheckItems(items: seq<Item>, catalog: map<string, Product>): ItemsOutcome {
    CheckLoop(items, catalog, 0, [], [])
  }

  /** When every item from `k` on passes, the loop is through and has
      looked up each of them in order. */
  lemma {:induction false} CheckLoopAccepts(items: seq<Item>, catalog: map<string, Product>, k: nat,
                                            products: seq<Product>, lookups: seq<Call>)
    requires k <= |items|
    requires forall i :: k <= i < |items| ==> (items[i].quantity > 0 && items[i].productId in catalog)
    ensures CheckLoop(items, catalog, k, products, lookups)
            == Accepted(products + Lookups(items[k..], catalog), lookups + LookupCalls(items[k..]))
    decreases |items| - k
  {
    if k < |items| {
      var rest := items[k..];
      assert rest[0] == items[k];
      assert rest[1..] == items[k + 1..];
      CheckLoopAccepts(items, catalog, k + 1, products + [catalog[items[k].productId]],
                       lookups + [GetProductCall(items[k].productId)]);
      assert Lookups(rest, catalog) == [catalog[items[k].productId]] + Lookups(items[k + 1..], catalog);
      assert LookupCalls(rest) == [GetProductCall(items[k].productId)] + LookupCalls(items[k + 1..]);
      ConcatAssoc(products, [catalog[items[k].productId]], Lookups(items[k + 1..], catalog));
      ConcatAssoc(lookups, [GetProductCall(items[k].productId)], LookupCalls(items[k + 1..]));
    } else {
      assert items[k..] == [];
    }
  }

  /** When item `j` is the first from `k` on to fail, the loop is rejected
      with that item's message, after looking up the items between. */
  lemma {:induction false} CheckLoopRejects(items: seq<Item>, catalog: map<string, Product>, k: nat, j: nat,
                                            products: seq<Product>, lookups: seq<Call>)
    requires k <= j < |items|
    requires forall i :: k <= i < j ==> (items[i].quantity > 0 && items[i].productId in catalog)
    requires (items[j].quantity <= 0 || items[j].productId !in catalog)
    ensures CheckLoop(items, catalog, k, products, lookups)
            == Rejected(Fault(items[j]), lookups + LookupCalls(items[k..j]) + FaultCalls(items[j]))
    decreases j - k
  {
    if k < j {
      var between := items[k..j];
      assert between[0] == items[k];
      assert between[1..] == items[k + 1..j];
      CheckLoopRejects(items, catalog, k + 1, j, products + [catalog[items[k].productId]],
                       lookups + [GetProductCall(items[k].productId)]);
      assert LookupCalls(between) == [GetProductCall(items[k].productId)] + LookupCalls(items[k + 1..j]);
      ConcatAssoc(lookups, [GetProductCall(items[k].productId)], LookupCalls(items[k + 1..j]));
    } else {
      assert items[k..j] == [];
      assert lookups + [] == lookups;
    }
  }

  /** A request whose items all pass is through the item loop with one
      lookup per item, in order. */
  lemma CheckItemsAccepts(items: seq<Item>, catalog: map<string, Product>)
    requires forall i :: 0 <= i < |items| ==> (items[i].quantity > 0 && items[i].productId in catalog)
    ensures CheckItems(items, catalog) == Accepted(Lookups(items, catalog), LookupCalls(items))
  {
    CheckLoopAccepts(items, catalog, 0, [], []);
    assert items[0..] == items;
    assert [] + Lookups(items, catalog) == Lookups(items, catalog);
    assert [] + LookupCalls(items) == LookupCalls(items);
  }

  /** A request whose first failing item is `j` is rejected with that
      item's message, after the lookups of the items before it. */
  lemma CheckItemsRejects(items: seq<Item>, catalog: map<string, Product>, j: nat)
    requires j < |items| && (items[j].quantity <= 0 || items[j].productId !in catalog)
    requires forall i :: 0 <= i < j ==> (items[i].quantity > 0 && items[i].productId in catalog)
    ensures CheckItems(items, catalog) == Rejected(Fault(items[j]), LookupCalls(items[..j]) + FaultCalls(items[j]))
  {
    CheckLoopRejects(items, catalog, 0, j, [], []);
    assert items[0..j] == items[..j];
    assert [] + LookupCalls(items[..j]) == LookupCalls(items[..j]);
  }

  /** The item loop is through exactly when every item passes both
      checks. */
  lemma CheckItemsAcceptsIff(items: seq<Item>, catalog: map<string, Product>)
    ensures CheckItems(items, catalog).Accepted?
            <==> forall i :: 0 <= i < |items| ==> (items[i].quantity > 0 && items[i].productId in catalog)
  {
    if forall i :: 0 <= i < |items| ==> (items[i].quantity > 0 && items[i].productId in catalog) {
      CheckItemsAccepts(items, catalog);
    } else {
      CheckItemsRejects(items, catalog, FirstFailing(items, catalog));
    }
  }

  /** The index of the first item that fails a check, when one does. */
  function FirstFailing(items: seq<Item>, catalog: map<string, Product>): (j: nat)
    requires exists i :: 0 <= i < |items| && (items[i].quantity <= 0 || items[i].productId !in catalog)
    ensures j < |items| && (items[j].quantity <= 0 || items[j].productId !in catalog)
    ensures forall i :: 0 <= i < j ==> (items[i].quantity > 0 && items[i].productId in catalog)
  {
    if (items[0].quantity <= 0 || items[0].productId !in catalog) then 0
    else
      assert exists i :: 0 <= i < |items[1..]| && (items[1..][i].quantity <= 0 || items[1..][i].productId !in catalog) by {
        var i :| 0 <= i < |items| && (items[i].quantity <= 0 || items[i].productId !in catalog);
        assert items[1..][i - 1] == items[i];
      }
      1 + FirstFailing(items[1..], catalog)
  }

  /** PlaceOrder as a function of the request and of what its
      collaborators answer. */
  function Decide(req: OrderReq, b: Backend): Outcome {
    if !CouponLengthOk(req.couponCode) then
      Outcome(Response(StatusUnprocessableEntity, Message(InvalidCoupon)), None, [])
    else if b.search.SetupFailed? then
      Outcome(Empty, None, [SearchCall])
    else
      match CheckItems(req.items, b.catalog)
      case Rejected(message, lookups) =>
        Outcome(Response(StatusBadRequest, Message(message)), None, [SearchCall] + lookups)
      case Accepted(products, lookups) =>
        var validated := [SearchCall] + lookups + [ValidateCall];
        match b.search.verdict
        case Err(e) => Outcome(Empty, Some(e), validated)
        case Ok(false) =>
          Outcome(Response(StatusUnprocessableEntity, Message(InvalidCoupon)), None, validated)
        case Ok(true) =>
          var calls := validated + [CreateOrderCall(DbOrder(b.orderId, req.items))];
          if b.createOrder.Some? then Outcome(Empty, b.createOrder, calls)
          else Outcome(Response(StatusOK, OrderBody(Order(b.orderId, req.items, products))), None, calls)
  }

  /** PlaceOrder: the checks in their fixed order, then the response. */
  method PlaceOrder(req: OrderReq, b: Backend) returns (res: Response, err: Option<Error>, calls: seq<Call>)
    ensures Outcome(res, err, calls) == Decide(req, b)
  {
    if ByteLength(req.couponCode) < 8 || ByteLength(req.couponCode) > 10 {
      return Response(StatusUnprocessableEntity, Message(InvalidCoupon)), None, [];
    }
    if b.search.SetupFailed? {
      return Empty, None, [SearchCall];
    }
    var id := b.orderId;
    var items: seq<Item> := [];
    var products: seq<Product> := [];
    var lookups: seq<Call> := [];
    var k := 0;
    while k < |req.items|
      invariant k <= |req.items|
      invariant items == req.items[..k]
      invariant CheckLoop(req.items, b.catalog, k, products, lookups) == CheckItems(req.items, b.catalog)
    {
      var item := req.items[k];
      if item.quantity <= 0 {
        return Response(StatusBadRequest, Message(InvalidQuantity)), None, [SearchCall] + lookups;
      }
      lookups := lookups + [GetProductCall(item.productId)];
      if item.productId !in b.catalog {
        return Response(StatusBadRequest, Message(InvalidProduct)), None, [SearchCall] + lookups;
      }
      var product := b.catalog[item.productId];
      items := items + [item];
      products := products + [Product(product.id, product.name, product.price, product.category)];
      k := k + 1;
    }
    assert items == req.items;
    calls := [SearchCall] + lookups + [ValidateCall];
    match b.search.verdict {
      case Err(e) =>
        return Empty, Some(e), calls;
      case Ok(found) =>
        if !found {
          return Response(StatusUnprocessableEntity, Message(InvalidCoupon)), None, calls;
        }
    }
    var dbItems: seq<Item> := [];
    for j := 0 to |req.items|
      invariant dbItems == req.items[..j]
    {
      dbItems := dbItems + [Item(req.items[j].productId, req.items[j].quantity)];
    }
    assert dbItems == req.items;
    calls := calls + [CreateOrderCall(DbOrder(id, dbItems))];
    if b.createOrder.Some? {
      return Empty, b.createOrder, calls;
    }
    return Response(StatusOK, OrderBody(Order(id, items, products))), None, calls;
  }

  /** A coupon code outside 8 to 10 bytes is refused with 422 before any
      call on a collaborator. */
  lemma CouponLengthFirst(req: OrderReq, b: Backend)
    requires ByteLength(req.couponCode) < 8 || ByteLength(req.couponCode) > 10
    ensures Decide(req, b) == Outcome(Response(StatusUnprocessableEntity, Message(InvalidCoupon)), None, [])
  {
  }

  /** A failed search set-up gives the empty response and no error, and
      nothing is called after the search. */
  lemma SearchSetupSwallowed(req: OrderReq, b: Backend)
    requires CouponLengthOk(req.couponCode) && b.search.SetupFailed?
    ensures Decide(req, b) == Outcome(Empty, None, [SearchCall])
  {
  }

  /** The first item that fails a check decides the 400 response: its
      quantity is checked before its product is looked up, the items before
      it have each been looked up once, and the coupon verdict is never
      consulted. */
  lemma FirstFailingItemDecides(req: OrderReq, b: Backend, j: nat)
    requires CouponLengthOk(req.couponCode) && b.search.Started?
    requires j < |req.items| && (req.items[j].quantity <= 0 || req.items[j].productId !in b.catalog)
    requires forall i :: 0 <= i < j ==> (req.items[i].quantity > 0 && req.items[i].productId in b.catalog)
    ensures Decide(req, b).response == Response(StatusBadRequest, Message(Fault(req.items[j])))
    ensures Decide(req, b).error == None
    ensures Decide(req, b).calls == [SearchCall] + LookupCalls(req.items[..j]) + FaultCalls(req.items[j])
    ensures ValidateCall !in Decide(req, b).calls
  {
    CheckItemsRejects(req.items, b.catalog, j);
    var calls := Decide(req, b).calls;
    forall m | 0 <= m < |calls|
      ensures calls[m] != ValidateCall
    {
      if 1 <= m < 1 + j {
        assert calls[m] == LookupCalls(req.items[..j])[m - 1];
      }
    }
  }

  /** Once every item passes, the coupon verdict is consulted: an error
      from Validate is returned as it is with the empty response, and a
      negative verdict is a 422; no order is created in either case. */
  lemma VerdictAfterItems(req: OrderReq, b: Backend)
    requires CouponLengthOk(req.couponCode) && b.search.Started?
    requires forall i :: 0 <= i < |req.items| ==> (req.items[i].quantity > 0 && req.items[i].productId in b.catalog)
    ensures b.search.verdict.Err? ==>
              Decide(req, b) == Outcome(Empty, Some(b.search.verdict.error),
                                        [SearchCall] + LookupCalls(req.items) + [ValidateCall])
    ensures b.search.verdict == Ok(false) ==>
              Decide(req, b) == Outcome(Response(StatusUnprocessableEntity, Message(InvalidCoupon)), None,
                                        [SearchCall] + LookupCalls(req.items) + [ValidateCall])
  {
    CheckItemsAccepts(req.items, b.catalog);
  }

  /** A positive verdict leads, after the search, the lookups and
      Validate, to one CreateOrder call, with the order id
      and one row per request item carrying its product id and quantity;
      its error is returned with the empty response. Otherwise the answer
      is 200 with the request's items and, in the same order, the products
      looked up for them. */
  lemma OrderPlaced(req: OrderReq, b: Backend)
    requires CouponLengthOk(req.couponCode) && b.search == Started(Ok(true))
    requires forall i :: 0 <= i < |req.items| ==> (req.items[i].quantity > 0 && req.items[i].productId in b.catalog)
    ensures var o := Decide(req, b);
            && o.calls == [SearchCall] + LookupCalls(req.items)
                          + [ValidateCall, CreateOrderCall(DbOrder(b.orderId, req.items))]
            && (b.createOrder.Some? ==> o.response == Empty && o.error == b.createOrder)
            && (b.createOrder.None? ==>
                  && o.error == None
                  && o.response.code == StatusOK
                  && o.response.body.OrderBody?
                  && o.response.body.order.id == b.orderId
                  && o.response.body.order.items == req.items
                  && |o.response.body.order.products| == |req.items|
                  && forall i :: 0 <= i < |req.items| ==>
                       o.response.body.order.products[i] == b.catalog[req.items[i].productId])
  {
    CheckItemsAccepts(req.items, b.catalog);
  }

  /** Service test "invalid coupon length": "SHORT" gives 422. */
  lemma ShortCouponCase(b: Backend)
    ensures Decide(OrderReq("SHORT", [Item("1", 1)]), b).response.code == StatusUnprocessableEntity
    ensures Decide(OrderReq("SHORT", [Item("1", 1)]), b).error == None
  {
    TestCouponLengths();
  }

  /** Service test "invalid quantity": a zero quantity gives 400, whatever
      the catalog holds. */
  lemma ZeroQuantityCase(b: Backend)
    requires b.search.Started?
    ensures Decide(OrderReq("HAPPYHOURS", [Item("1", 0)]), b).response.code == StatusBadRequest
    ensures Decide(OrderReq("HAPPYHOURS", [Item("1", 0)]), b).error == None
  {
    TestCouponLengths();
    FirstFailingItemDecides(OrderReq("HAPPYHOURS", [Item("1", 0)]), b, 0);
  }

  /** Service test "invalid product specified": an id GetProduct does not
      know gives 400. */
  lemma UnknownProductCase(b: Backend)
    requires b.search.Started? && "invalid-prod" !in b.catalog
    ensures Decide(OrderReq("HAPPYHOURS", [Item("invalid-prod", 1)]), b).response.code == StatusBadRequest
    ensures Decide(OrderReq("HAPPYHOURS", [Item("invalid-prod", 1)]), b).error == None
  {
    TestCouponLengths();
    FirstFailingItemDecides(OrderReq("HAPPYHOURS", [Item("invalid-prod", 1)]), b, 0);
  }

  /** Service test "create test order successfully": a known product, a
      found coupon and a CreateOrder that succeeds give 200 and no error. */
  lemma OrderCreatedCase(orderId: string)
    ensures var b := Backend(Started(Ok(true)), map["1" := Product("1", "Product 1", 100.0, "cat")], orderId, None);
            && Decide(OrderReq("HAPPYHOURS", [Item("1", 2)]), b).response.code == StatusOK
            && Decide(OrderReq("HAPPYHOURS", [Item("1", 2)]), b).error == None
  {
    TestCouponLengths();
    var b := Backend(Started(Ok(true)), map["1" := Product("1", "Product 1", 100.0, "cat")], orderId, None);
    OrderPlaced(OrderReq("HAPPYHOURS", [Item("1", 2)]), b);
  }
}
