/**
  * One product tile of the catalog grid (client/src/features/catalog/ProductCard.tsx):
  * the local quantity picked before adding, whether the product is already in
  * the cached cart, what the stepper and the primary button do in each case,
  * the brand caption and the toast texts. Each handler is a function of the
  * tile state, the cached cart and whether the request it sends succeeds.
  */
module ProductCard {
  import opened Wrappers
  import opened Text
  import CartApi
  import opened CartPage

  /** The largest quantity the local stepper reaches. */
  const MaxLocalQty := 99

  /** `brandText`: the trimmed brand in capitals, or "GENERIC" when there is none. */
  function BrandText(brand: Option<string>): (r: string)
    ensures IsNullOrWhiteSpace(brand) ==> r == "GENERIC"
    ensures !IsNullOrWhiteSpace(brand) ==> r == ToUpper(Trim(brand.value))
  {
    if brand.None? then "GENERIC"
    else
      var b := Trim(brand.value);
      if b == "" then "GENERIC" else ToUpper(b)
  }

  /** The caption is never empty, has no white space at either end and no lower-case letter. */
  lemma BrandTextShape(brand: Option<string>)
    ensures var r := BrandText(brand);
      |r| > 0 && IsTrimmed(r) && forall i :: 0 <= i < |r| ==> !('a' <= r[i] <= 'z')
  {
    if IsNullOrWhiteSpace(brand) {
      assert BrandText(brand) == "GENERIC";
      GenericShape();
    } else {
      var b := Trim(brand.value);
      assert BrandText(brand) == ToUpper(b);
      ToUpperTrimmed(b);
      ToUpperNoLower(b);
    }
  }

  /** The fallback caption is non-empty, unpadded and in capitals. */
  lemma GenericShape()
    ensures |"GENERIC"| > 0 && IsTrimmed("GENERIC") && forall i :: 0 <= i < |"GENERIC"| ==> !('a' <= "GENERIC"[i] <= 'z')
  {
    var g := "GENERIC";
    assert g[0] == 'G' && g[6] == 'C';
  }

  /** `cartQty`: the quantity of the first cached line for the product, 0 when there is none. */
  function CartQty(cart: Option<CartApi.Cart>, productId: int): (q: int)
    ensures cart.None? ==> q == 0
    ensures cart.Some? && CartApi.FindItem(cart.value.products, productId).None? ==> q == 0
    ensures cart.Some? && CartApi.FindItem(cart.value.products, productId).Some? ==>
      q == cart.value.products[CartApi.FindItem(cart.value.products, productId).value].quantity
  {
    if cart.None? then 0
    else match CartApi.FindItem(cart.value.products, productId)
      case None => 0
      case Some(i) => cart.value.products[i].quantity
  }

  /** `inCart`: the cached cart holds a line for the product with a positive quantity. */
  predicate InCart(cart: Option<CartApi.Cart>, productId: int)
    ensures InCart(cart, productId) ==> cart.Some? && CartApi.FindItem(cart.value.products, productId).Some?
  {
    CartQty(cart, productId) > 0
  }

  /** `displayQty`: the cart's quantity once in the cart, the local pick before. */
  function DisplayQty(cart: Option<CartApi.Cart>, productId: int, localQty: int): (q: int)
    ensures InCart(cart, productId) ==> q == CartQty(cart, productId) && q > 0
    ensures !InCart(cart, productId) ==> q == localQty
  {
    if InCart(cart, productId) then CartQty(cart, productId) else localQty
  }

  /** The tile's own state: the local pick and the toast text, once one was shown. */
  datatype Tile = Tile(localQty: int, toast: Option<string>)

  /** A freshly rendered tile. */
  const NewTile := Tile(1, None)

  /** The tile's buttons. */
  datatype Press = Inc | Dec | Primary

  /** The tile after a press, and the request it sent if any; `succeeded` is the request's outcome. */
  function Handle(t: Tile, cart: Option<CartApi.Cart>, productId: int, press: Press, succeeded: bool): (r: (Tile, Option<CartRequest>))
    ensures !InCart(cart, productId) && press == Inc ==> r.0.localQty == Min(MaxLocalQty, t.localQty + 1) && r.1.None?
    ensures !InCart(cart, productId) && press == Dec ==> r.0.localQty == Max(1, t.localQty - 1) && r.1.None?
    ensures InCart(cart, productId) && press == Inc ==> r.0.localQty == t.localQty && r.1 == Some(AddItem(productId, 1))
    ensures InCart(cart, productId) && press == Dec ==> r.0.localQty == t.localQty && r.1 == Some(RemoveItem(productId, 1))
    ensures InCart(cart, productId) && press == Primary ==> r.0 == t && r.1.None?
    ensures !InCart(cart, productId) && press == Primary ==>
      r.1 == Some(AddItem(productId, t.localQty)) && r.0.localQty == (if succeeded then 1 else t.localQty)
    ensures InCart(cart, productId) && press == Dec && succeeded ==>
      (r.0.toast == Some("Removed from cart") <==> CartQty(cart, productId) == 1)
  {
    var inCart := InCart(cart, productId);
    match press
    case Inc =>
      if !inCart then (t.(localQty := Min(MaxLocalQty, t.localQty + 1)), None)
      else (if succeeded then t.(toast := Some("Updated cart")) else t, Some(AddItem(productId, 1)))
    case Dec =>
      if !inCart then (t.(localQty := Max(1, t.localQty - 1)), None)
      else
        var msg := if CartQty(cart, productId) == 1 then "Removed from cart" else "Updated cart";
        (if succeeded then t.(toast := Some(msg)) else t, Some(RemoveItem(productId, 1)))
    case Primary =>
      if inCart then (t, None)
      else if succeeded then (Tile(1, Some("Added " + IntText(t.localQty) + " to cart")), Some(AddItem(productId, t.localQty)))
      else (t, Some(AddItem(productId, t.localQty)))
  }

  /** `Math.min`. */
  function Min(a: int, b: int): int { if a <= b then a else b }

  /** `Math.max`. */
  function Max(a: int, b: int): int { if a >= b then a else b }

  /** One press together with the cart cached at that moment and the outcome of its request. */
  datatype Interaction = Interaction(cart: Option<CartApi.Cart>, press: Press, succeeded: bool)

  /** The tile after a run of presses. */
  function Replay(t: Tile, productId: int, xs: seq<Interaction>): Tile
    decreases |xs|
  {
    if |xs| == 0 then t
    else
      var x := xs[|xs| - 1];
      Handle(Replay(t, productId, xs[..|xs| - 1]), x.cart, productId, x.press, x.succeeded).0
  }

  /** From a fresh tile the local pick stays within [1, 99] whatever is pressed and whatever the cart holds. */
  lemma {:induction false} LocalQtyInRange(productId: int, xs: seq<Interaction>)
    ensures 1 <= Replay(NewTile, productId, xs).localQty <= MaxLocalQty
    decreases |xs|
  {
    if |xs| > 0 {
      LocalQtyInRange(productId, xs[..|xs| - 1]);
    }
  }
}
