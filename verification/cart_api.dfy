/**
  * The client's cart endpoint (client/src/features/cart/cartApi.ts): the cached
  * cart, the optimistic patches the add and remove mutations apply to it before
  * the server answers, and how the cache settles once it does. The server's
  * reply, the order of in-flight requests and RTK Query's patch bookkeeping are
  * inputs; the patches are pure functions on the cached value.
  */
module CartApi {
  import opened Wrappers
  import opened Entities
  import Carts
  import CartDtos
  import Queries

  /** The client's `CartProduct`: the fields of the server's line it declares. */
  datatype CartItem = CartItem(
    productId: int,
    name: string,
    price: int,
    pictureUrl: string,
    brand: string,
    productType: string,
    quantity: int
  )

  /** The client's `Cart`. */
  datatype Cart = Cart(id: int, cartId: string, products: seq<CartItem>)

  /** `emptyCart()`: id 0, an empty cart id and no lines. */
  const EmptyCart := Cart(0, "", [])

  /** How a server line reads on the client. */
  function ItemOf(dto: CartDtos.CartProductDto): CartItem
  {
    CartItem(dto.productId, dto.name, dto.price, dto.pictureUrl, dto.brand, dto.productType, dto.quantity)
  }

  /** How the server's cart reads on the client: the declared fields of every line, in order. */
  function ClientView(cart: Carts.Cart): (r: Cart)
    ensures r.id == cart.id && r.cartId == cart.cartId
    ensures |r.products| == |cart.products|
    ensures forall k :: 0 <= k < |cart.products| ==>
      r.products[k] == ItemOf(CartDtos.ToLineDto(cart.products[k]))
  {
    var dto := CartDtos.ToCartDto(cart);
    Cart(dto.id, dto.cartId, Items(dto.products))
  }

  /** Every server line as the client reads it. */
  function Items(dtos: seq<CartDtos.CartProductDto>): (r: seq<CartItem>)
    ensures |r| == |dtos|
    ensures forall k :: 0 <= k < |dtos| ==> r[k] == ItemOf(dtos[k])
  {
    if |dtos| == 0 then [] else [ItemOf(dtos[0])] + Items(dtos[1..])
  }

  /** `getCartItems`'s `transformResponse`: a missing cart reads as the empty cart. */
  function TransformResponse(response: Option<Cart>): (r: Cart)
    ensures response.None? ==> r.id == 0 && r.cartId == "" && |r.products| == 0
    ensures response.Some? ==> r == response.value
  {
    response.GetOr(EmptyCart)
  }

  /** `draft.products.find(p => p.productId === productId)`: the first line with the id. */
  function FindItem(items: seq<CartItem>, productId: int): (r: Option<nat>)
    ensures r.Some? ==> r.value < |items| && items[r.value].productId == productId
    ensures r.Some? ==> forall j :: 0 <= j < r.value ==> items[j].productId != productId
    ensures r.None? ==> forall j :: 0 <= j < |items| ==> items[j].productId != productId
  {
    if |items| == 0 then None
    else if items[0].productId == productId then Some(0)
    else
      match FindItem(items[1..], productId)
      case None => None
      case Some(k) => Some(k + 1)
  }

  /** The add mutation's optimistic patch: only an existing line changes. */
  function AddPatch(cart: Cart, productId: int, quantity: int): (r: Cart)
    ensures r.id == cart.id && r.cartId == cart.cartId
    ensures |r.products| == |cart.products|
    ensures forall j :: 0 <= j < |cart.products| ==> r.products[j].productId == cart.products[j].productId
    ensures FindItem(cart.products, productId).None? ==> r == cart
    ensures FindItem(cart.products, productId).Some? ==>
      var i := FindItem(cart.products, productId).value;
      && r.products[i] == cart.products[i].(quantity := cart.products[i].quantity + quantity)
      && forall j :: 0 <= j < |cart.products| && j != i ==> r.products[j] == cart.products[j]
  {
    match FindItem(cart.products, productId)
    case None => cart
    case Some(i) =>
      var item := cart.products[i];
      cart.(products := cart.products[i := item.(quantity := item.quantity + quantity)])
  }

  /** `products.filter(p => p.productId !== productId)`. */
  function DropId(items: seq<CartItem>, productId: int): (r: seq<CartItem>)
    ensures |r| <= |items|
  {
    if |items| == 0 then []
    else if items[0].productId == productId then DropId(items[1..], productId)
    else [items[0]] + DropId(items[1..], productId)
  }

  /** `DropId` is the filter by a different id: the kept lines keep their order and their repeats. */
  lemma {:induction false} DropIdIsWhere(items: seq<CartItem>, productId: int)
    ensures DropId(items, productId) == Queries.Where(items, (x: CartItem) => x.productId != productId)
    ensures Queries.IsSubsequence(DropId(items, productId), items)
    decreases |items|
  {
    if |items| > 0 {
      DropIdIsWhere(items[1..], productId);
    }
  }

  /** What `DropId` keeps: exactly the lines with another id. */
  lemma {:induction false} DropIdMembers(items: seq<CartItem>, productId: int)
    ensures forall x :: x in DropId(items, productId) <==> x in items && x.productId != productId
    decreases |items|
  {
    if |items| > 0 {
      DropIdMembers(items[1..], productId);
      assert items == [items[0]] + items[1..];
    }
  }

  /** The remove mutation's optimistic patch: an absent line is left alone; a quantity that
      would reach zero drops every line with the id; otherwise the first line is lowered. */
  function RemovePatch(cart: Cart, productId: int, quantity: int): (r: Cart)
    ensures r.id == cart.id && r.cartId == cart.cartId
    ensures FindItem(cart.products, productId).None? ==> r == cart
    ensures FindItem(cart.products, productId).Some? ==>
      var i := FindItem(cart.products, productId).value;
      if cart.products[i].quantity - quantity <= 0
      then forall x :: x in r.products <==> x in cart.products && x.productId != productId
      else
        && |r.products| == |cart.products|
        && r.products[i] == cart.products[i].(quantity := cart.products[i].quantity - quantity)
        && forall j :: 0 <= j < |cart.products| && j != i ==> r.products[j] == cart.products[j]
  {
    match FindItem(cart.products, productId)
    case None => cart
    case Some(i) =>
      var item := cart.products[i];
      var next := item.quantity - quantity;
      DropIdMembers(cart.products, productId);
      if next <= 0 then cart.(products := DropId(cart.products, productId))
      else cart.(products := cart.products[i := item.(quantity := next)])
  }

  /** What became of the request once it settled. */
  datatype Outcome = Fulfilled(data: Cart) | Rejected

  /** The cache right after `onQueryStarted` ran: patched only when a cart is cached. */
  function Optimistic(cached: Option<Cart>, patch: Cart -> Cart): (r: Option<Cart>)
    ensures cached.None? <==> r.None?
    ensures cached.Some? ==> r == Some(patch(cached.value))
  {
    if cached.Some? then Some(patch(cached.value)) else None
  }

  /** The cache once the request settled: the server's cart on success; on failure the
      patch is undone, which restores the cache as it was before the mutation. */
  function Settle(before: Option<Cart>, outcome: Outcome): (r: Option<Cart>)
    ensures outcome.Fulfilled? ==> r == Some(outcome.data)
    ensures outcome.Rejected? ==> r == before
  {
    match outcome
    case Fulfilled(data) => Some(data)
    case Rejected => before
  }

  /** The whole life of one add mutation, from the cached cart to the settled one. */
  function AddCartItem(cached: Option<Cart>, productId: int, quantity: int, outcome: Outcome): (r: (Option<Cart>, Option<Cart>))
    ensures cached.None? ==> r.0 == None
    ensures cached.Some? ==> r.0 == Some(AddPatch(cached.value, productId, quantity))
    ensures r.1 == Settle(cached, outcome)
  {
    (Optimistic(cached, c => AddPatch(c, productId, quantity)), Settle(cached, outcome))
  }

  /** The whole life of one remove mutation, from the cached cart to the settled one. */
  function RemoveCartItem(cached: Option<Cart>, productId: int, quantity: int, outcome: Outcome): (r: (Option<Cart>, Option<Cart>))
    ensures cached.None? ==> r.0 == None
    ensures cached.Some? ==> r.0 == Some(RemovePatch(cached.value, productId, quantity))
    ensures r.1 == Settle(cached, outcome)
  {
    (Optimistic(cached, c => RemovePatch(c, productId, quantity)), Settle(cached, outcome))
  }

  /** A failed mutation leaves no trace: the settled cache equals the cache before it. */
  lemma FailedMutationRestores(cached: Option<Cart>, productId: int, quantity: int)
    ensures AddCartItem(cached, productId, quantity, Rejected).1 == cached
    ensures RemoveCartItem(cached, productId, quantity, Rejected).1 == cached
  {
  }

  // ---------------------------------------------------------------------------
  // Agreement with the server's cart

  /** The client finds the line the server finds. */
  lemma FindAgrees(cart: Carts.Cart, productId: int)
    ensures FindItem(ClientView(cart).products, productId) == Carts.FindProductById(cart.products, productId)
  {
    var items := ClientView(cart).products;
    SameProductIds(cart);
    FirstIndexUnique(items, productId, FindItem(items, productId), Carts.FindProductById(cart.products, productId));
  }

  /** The client view keeps every line's product id. */
  lemma SameProductIds(cart: Carts.Cart)
    ensures |ClientView(cart).products| == |cart.products|
    ensures forall k :: 0 <= k < |cart.products| ==> ClientView(cart).products[k].productId == cart.products[k].productId
  {
  }

  /** There is one first position of an id. */
  lemma FirstIndexUnique(items: seq<CartItem>, productId: int, a: Option<nat>, b: Option<nat>)
    requires a.Some? ==> a.value < |items| && items[a.value].productId == productId && forall j :: 0 <= j < a.value ==> items[j].productId != productId
    requires a.None? ==> forall j :: 0 <= j < |items| ==> items[j].productId != productId
    requires b.Some? ==> b.value < |items| && items[b.value].productId == productId && forall j :: 0 <= j < b.value ==> items[j].productId != productId
    requires b.None? ==> forall j :: 0 <= j < |items| ==> items[j].productId != productId
    ensures a == b
  {
  }

  /** For a positive quantity on a product already in the cart, the add patch shows what the server will answer. */
  lemma AddPatchAgrees(cart: Carts.Cart, product: Product, quantity: int)
    requires Carts.Valid(cart.products) && quantity > 0
    requires Carts.HasProduct(cart.products, product.id)
    ensures ClientView(Carts.AddProduct(cart, product, quantity).value) == AddPatch(ClientView(cart), product.id, quantity)
  {
    FindAgrees(cart, product.id);
    var a := ClientView(Carts.AddProduct(cart, product, quantity).value).products;
    var b := AddPatch(ClientView(cart), product.id, quantity).products;
    assert |a| == |b|;
    forall k | 0 <= k < |a| ensures a[k] == b[k] {
    }
  }

  /** `DropId` on a list where exactly one line has the id removes that line. */
  lemma {:induction false} DropIdSingle(items: seq<CartItem>, i: nat, productId: int)
    requires i < |items| && items[i].productId == productId
    requires forall j :: 0 <= j < |items| && j != i ==> items[j].productId != productId
    ensures DropId(items, productId) == items[..i] + items[i + 1..]
    decreases |items|
  {
    var tail := items[1..];
    if i == 0 {
      DropIdNone(tail, productId);
      assert DropId(items, productId) == DropId(tail, productId);
      assert items[..0] + items[1..] == tail;
    } else {
      assert forall j :: 0 <= j < |tail| && j != i - 1 ==> tail[j].productId != productId;
      DropIdSingle(tail, i - 1, productId);
      assert DropId(items, productId) == [items[0]] + DropId(tail, productId);
      assert tail[..i - 1] + tail[i..] == items[1..i] + items[i + 1..];
      assert [items[0]] + items[1..i] == items[..i];
    }
  }

  /** `DropId` without a line holding the id changes nothing. */
  lemma {:induction false} DropIdNone(items: seq<CartItem>, productId: int)
    requires forall j :: 0 <= j < |items| ==> items[j].productId != productId
    ensures DropId(items, productId) == items
    decreases |items|
  {
    if |items| > 0 {
      DropIdNone(items[1..], productId);
    }
  }

  /** For a positive quantity the remove patch shows what the server will answer. */
  lemma RemovePatchAgrees(cart: Carts.Cart, productId: int, quantity: int)
    requires Carts.Valid(cart.products) && quantity > 0
    ensures ClientView(Carts.RemoveProduct(cart, productId, Some(quantity))) == RemovePatch(ClientView(cart), productId, quantity)
  {
    FindAgrees(cart, productId);
    var found := Carts.FindProductById(cart.products, productId);
    if found.Some? {
      if cart.products[found.value].quantity <= quantity {
        RemoveLineAgrees(cart, productId, quantity, found.value);
      } else {
        LowerLineAgrees(cart, productId, quantity, found.value);
      }
    }
  }

  /** The case where the whole line goes. */
  lemma RemoveLineAgrees(cart: Carts.Cart, productId: int, quantity: int, i: nat)
    requires Carts.Valid(cart.products) && quantity > 0
    requires Carts.FindProductById(cart.products, productId) == Some(i)
    requires FindItem(ClientView(cart).products, productId) == Some(i)
    requires cart.products[i].quantity <= quantity
    ensures ClientView(Carts.RemoveProduct(cart, productId, Some(quantity))) == RemovePatch(ClientView(cart), productId, quantity)
  {
    var view := ClientView(cart).products;
    var server := Carts.RemoveProduct(cart, productId, Some(quantity));
    assert server.products == cart.products[..i] + cart.products[i + 1..];
    SameProductIds(cart);
    DropIdSingle(view, i, productId);
    ViewRemoveAt(cart, server, i);
    assert RemovePatch(ClientView(cart), productId, quantity).products == DropId(view, productId);
  }

  /** The client view of a cart with one line removed is the view with that line removed. */
  lemma ViewRemoveAt(cart: Carts.Cart, server: Carts.Cart, i: nat)
    requires i < |cart.products| && server.products == cart.products[..i] + cart.products[i + 1..]
    ensures ClientView(server).products == ClientView(cart).products[..i] + ClientView(cart).products[i + 1..]
  {
    var view := ClientView(cart).products;
    var a := ClientView(server).products;
    var b := view[..i] + view[i + 1..];
    assert |a| == |b|;
    forall k | 0 <= k < |a| ensures a[k] == b[k] {
      if k < i {
        assert server.products[k] == cart.products[k];
      } else {
        assert server.products[k] == cart.products[k + 1];
      }
    }
  }

  /** The case where the line is lowered. */
  lemma LowerLineAgrees(cart: Carts.Cart, productId: int, quantity: int, i: nat)
    requires Carts.Valid(cart.products) && quantity > 0
    requires Carts.FindProductById(cart.products, productId) == Some(i)
    requires FindItem(ClientView(cart).products, productId) == Some(i)
    requires cart.products[i].quantity > quantity
    ensures ClientView(Carts.RemoveProduct(cart, productId, Some(quantity))) == RemovePatch(ClientView(cart), productId, quantity)
  {
    var a := ClientView(Carts.RemoveProduct(cart, productId, Some(quantity))).products;
    var b := RemovePatch(ClientView(cart), productId, quantity).products;
    assert |a| == |b|;
    forall k | 0 <= k < |a| ensures a[k] == b[k] {
    }
  }

  /** For a non-positive quantity the two disagree: the server drops the line, while the
      patch raises its quantity. */
  lemma RemovePatchNonPositiveDiverges(cart: Carts.Cart, productId: int, quantity: int)
    requires Carts.Valid(cart.products) && quantity <= 0
    requires Carts.HasProduct(cart.products, productId)
    ensures |ClientView(Carts.RemoveProduct(cart, productId, Some(quantity))).products| == |cart.products| - 1
    ensures |RemovePatch(ClientView(cart), productId, quantity).products| == |cart.products|
  {
    FindAgrees(cart, productId);
  }
}
