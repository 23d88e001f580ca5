/**
  * The cart screen (client/src/features/cart/CartPage.tsx): the item count and
  * subtotal it derives from the cached cart, the requests its stepper and
  * remove buttons send, and what confirming checkout hands on. Amounts are whole
  * cents; the source's conversion to dollars is left out.
  */
module CartPage {
  import opened Wrappers
  import Carts
  import CartApi
  import OrderSummary

  /** `hasItems`: a cart is cached and it has at least one line. */
  predicate HasItems(cart: Option<CartApi.Cart>)
  {
    cart.Some? && |cart.value.products| > 0
  }

  /** The sum of the lines' quantities. */
  function QuantitySum(items: seq<CartApi.CartItem>): int
  {
    if |items| == 0 then 0 else items[0].quantity + QuantitySum(items[1..])
  }

  /** The sum of the lines' price times quantity. */
  function PriceSum(items: seq<CartApi.CartItem>): int
  {
    if |items| == 0 then 0 else items[0].price * items[0].quantity + PriceSum(items[1..])
  }

  /** `totalItems`: the quantities added up, 0 without items. */
  function TotalItems(cart: Option<CartApi.Cart>): (n: int)
    ensures !HasItems(cart) ==> n == 0
    ensures HasItems(cart) ==> n == QuantitySum(cart.value.products)
  {
    if HasItems(cart) then QuantitySum(cart.value.products) else 0
  }

  /** `subtotalCents`: price times quantity added up, 0 without items. */
  function SubtotalCents(cart: Option<CartApi.Cart>): (n: int)
    ensures !HasItems(cart) ==> n == 0
    ensures HasItems(cart) ==> n == PriceSum(cart.value.products)
  {
    if HasItems(cart) then PriceSum(cart.value.products) else 0
  }

  /** `deliveryFee` and `discount`: always zero. */
  const DeliveryFee := 0
  const Discount := 0

  /** The subtotal the client shows is the server's `TotalAmount` of the same cart. */
  lemma SubtotalMatchesServer(cart: Carts.Cart)
    ensures SubtotalCents(Some(CartApi.ClientView(cart))) == Carts.TotalAmount(cart.products)
  {
    PriceSumMatches(cart.products, CartApi.ClientView(cart).products);
  }

  /** Line by line, the client's price sum is the server's total. */
  lemma {:induction false} PriceSumMatches(lines: seq<Carts.CartLine>, items: seq<CartApi.CartItem>)
    requires |items| == |lines|
    requires forall k :: 0 <= k < |lines| ==> items[k].price == lines[k].product.price && items[k].quantity == lines[k].quantity
    ensures PriceSum(items) == Carts.TotalAmount(lines)
    decreases |lines|
  {
    if |lines| > 0 {
      PriceSumMatches(lines[1..], items[1..]);
    }
  }

  /** Raising one line by `q` raises the item count by `q`. */
  lemma {:induction false} QuantitySumUpdate(items: seq<CartApi.CartItem>, i: nat, q: int)
    requires i < |items|
    ensures QuantitySum(items[i := items[i].(quantity := items[i].quantity + q)]) == QuantitySum(items) + q
    decreases |items|
  {
    if i > 0 {
      QuantitySumUpdate(items[1..], i - 1, q);
      assert items[i := items[i].(quantity := items[i].quantity + q)][1..] == items[1..][i - 1 := items[i].(quantity := items[i].quantity + q)];
    }
  }

  /** The "+" of a line that is shown raises the optimistic item count by one. */
  lemma IncreaseRaisesCount(cart: CartApi.Cart, i: nat)
    requires i < |cart.products|
    ensures TotalItems(Some(CartApi.AddPatch(cart, cart.products[i].productId, 1))) == TotalItems(Some(cart)) + 1
  {
    var found := CartApi.FindItem(cart.products, cart.products[i].productId);
    var k := found.value;
    assert CartApi.AddPatch(cart, cart.products[i].productId, 1).products == cart.products[k := cart.products[k].(quantity := cart.products[k].quantity + 1)];
    QuantitySumUpdate(cart.products, k, 1);
  }

  /** A request the screen sends. */
  datatype CartRequest = AddItem(productId: int, quantity: int) | RemoveItem(productId: int, quantity: int)

  /** A line's buttons. */
  datatype LineButton = Decrease | Increase | RemoveLine

  /** "−" removes one, "+" adds one, and "Remove" removes the line's whole quantity. */
  function Press(item: CartApi.CartItem, button: LineButton): (r: CartRequest)
    ensures r.productId == item.productId
    ensures button == Increase <==> r.AddItem?
    ensures button == RemoveLine ==> r.quantity == item.quantity
    ensures button != RemoveLine ==> r.quantity == 1
  {
    match button
    case Decrease => RemoveItem(item.productId, 1)
    case Increase => AddItem(item.productId, 1)
    case RemoveLine => RemoveItem(item.productId, item.quantity)
  }

  /** "Remove" on a line of the server's cart deletes that line, on the server and in the optimistic patch alike. */
  lemma RemoveLineDeletes(cart: Carts.Cart, i: nat)
    requires Carts.Valid(cart.products) && i < |cart.products|
    ensures var item := CartApi.ClientView(cart).products[i];
      var req := Press(item, RemoveLine);
      && Carts.RemoveProduct(cart, req.productId, Some(req.quantity)).products == cart.products[..i] + cart.products[i + 1..]
      && CartApi.ClientView(Carts.RemoveProduct(cart, req.productId, Some(req.quantity))) == CartApi.RemovePatch(CartApi.ClientView(cart), req.productId, req.quantity)
  {
    var id := cart.products[i].productId;
    assert Carts.HasProduct(cart.products, id);
    var k := Carts.FindProductById(cart.products, id).value;
    assert k == i;
    CartApi.RemovePatchAgrees(cart, id, cart.products[i].quantity);
  }

  /** What confirming checkout hands to the checkout route. */
  datatype CheckoutState = CheckoutState(
    paymentMethod: OrderSummary.PaymentMethod,
    cart: CartApi.Cart,
    totalItems: int,
    subtotal: int,
    total: int,
    deliveryFee: int,
    discount: int
  )

  /** `handleConfirmCheckout`: closes the dialog, then navigates only when a cart is cached. */
  function ConfirmCheckout(cart: Option<CartApi.Cart>, payment: OrderSummary.PaymentMethod): (r: (bool, Option<CheckoutState>))
    ensures !r.0
    ensures r.1.None? <==> cart.None?
    ensures r.1.Some? ==> r.1.value.cart == cart.value && r.1.value.paymentMethod == payment
    ensures r.1.Some? ==> r.1.value.total == r.1.value.subtotal == SubtotalCents(cart)
    ensures r.1.Some? ==> r.1.value.totalItems == TotalItems(cart)
  {
    if cart.None? then (false, None)
    else
      var subtotal := SubtotalCents(cart);
      var total := OrderSummary.Total(subtotal, Some(DeliveryFee), Some(Discount));
      (false, Some(CheckoutState(payment, cart.value, TotalItems(cart), subtotal, total, DeliveryFee, Discount)))
  }
}
