/**
  * The server-side shopping cart (API/Entities/Cart.cs, CartProduct.cs): a list of
  * (product, quantity) lines mutated by AddProduct and RemoveProduct, and the money
  * derived from it. Mutators are functions from the old cart to the new one.
  */
module Carts {
  import opened Wrappers
  import opened Entities
  import Queries

  /** One cart line: the product, its id, the quantity and the owning cart's numeric id. */
  datatype CartLine = CartLine(productId: int, quantity: int, product: Product, cartId: int)

  /** A cart: numeric id, the cookie-issued cart id, and its lines in insertion order. */
  datatype Cart = Cart(id: int, cartId: string, products: seq<CartLine>)

  /** AddProduct's `ArgumentException` for a non-positive quantity. */
  datatype CartError = QuantityNotPositive

  /** The cart's invariant: product ids are unique and every quantity is at least 1. */
  predicate Valid(lines: seq<CartLine>)
  {
    && (forall i, j :: 0 <= i < j < |lines| ==> lines[i].productId != lines[j].productId)
    && (forall i :: 0 <= i < |lines| ==> lines[i].quantity >= 1)
  }

  /** Some line holds product `productId`. */
  predicate HasProduct(lines: seq<CartLine>, productId: int)
  {
    exists i :: 0 <= i < |lines| && lines[i].productId == productId
  }

  /** `FindProductById`: the index of the first line holding `productId`, if any. */
  function FindProductById(lines: seq<CartLine>, productId: int): (r: Option<nat>)
    ensures r.Some? ==> r.value < |lines| && lines[r.value].productId == productId
    ensures r.Some? ==> forall j :: 0 <= j < r.value ==> lines[j].productId != productId
    ensures r.None? <==> !HasProduct(lines, productId)
  {
    if |lines| == 0 then None
    else if lines[0].productId == productId then Some(0)
    else
      match FindProductById(lines[1..], productId)
      case None =>
        assert forall j :: 1 <= j < |lines| ==> lines[j] == lines[1..][j - 1];
        None
      case Some(i) => Some(i + 1)
  }

  /** `CartProduct.TotalPrice`: unit price times quantity. */
  function TotalPrice(line: CartLine): int
  {
    line.product.price * line.quantity
  }

  /** `Cart.TotalAmount`: the sum of the lines' total prices. */
  function TotalAmount(lines: seq<CartLine>): int
  {
    if |lines| == 0 then 0 else TotalPrice(lines[0]) + TotalAmount(lines[1..])
  }

  /** A cart of lines with non-negative prices and quantities has a non-negative total. */
  lemma {:induction false} TotalAmountNonNegative(lines: seq<CartLine>)
    requires forall i :: 0 <= i < |lines| ==> lines[i].product.price >= 0 && lines[i].quantity >= 0
    ensures TotalAmount(lines) >= 0
  {
    if |lines| > 0 {
      TotalAmountNonNegative(lines[1..]);
      assert TotalPrice(lines[0]) >= 0 by {
        var p, q := lines[0].product.price, lines[0].quantity;
        assert p * q >= 0;
      }
    }
  }

  /** `Cart.AddProduct`: rejects a non-positive quantity, otherwise raises the quantity
      of the product's line or appends a new line for it. */
  function AddProduct(cart: Cart, product: Product, quantity: int): (r: Result<Cart, CartError>)
    ensures r.Err? <==> quantity <= 0
    ensures r.Ok? ==> r.value.id == cart.id && r.value.cartId == cart.cartId
    ensures r.Ok? && !HasProduct(cart.products, product.id) ==>
      r.value.products == cart.products + [CartLine(product.id, quantity, product, cart.id)]
    ensures r.Ok? && HasProduct(cart.products, product.id) ==>
      |r.value.products| == |cart.products| &&
      forall j :: 0 <= j < |cart.products| ==>
        r.value.products[j] == (if j == FindProductById(cart.products, product.id).value
                                then cart.products[j].(quantity := cart.products[j].quantity + quantity)
                                else cart.products[j])
  {
    if quantity <= 0 then Err(QuantityNotPositive)
    else
      match FindProductById(cart.products, product.id)
      case None => Ok(cart.(products := cart.products + [CartLine(product.id, quantity, product, cart.id)]))
      case Some(i) =>
        var line := cart.products[i];
        Ok(cart.(products := cart.products[i := line.(quantity := line.quantity + quantity)]))
  }

  /** RemoveProduct deletes the whole line when the quantity is absent, non-positive,
      or at least the line's quantity. */
  predicate RemovesWholeLine(quantity: Option<int>, current: int)
  {
    quantity.None? || quantity.value <= 0 || quantity.value >= current
  }

  /** `Cart.RemoveProduct`: ignores an absent product; otherwise deletes the line or
      lowers its quantity. */
  function RemoveProduct(cart: Cart, productId: int, quantity: Option<int>): (r: Cart)
    ensures r.id == cart.id && r.cartId == cart.cartId
    ensures !HasProduct(cart.products, productId) ==> r == cart
    ensures HasProduct(cart.products, productId) ==>
      var i := FindProductById(cart.products, productId).value;
      if RemovesWholeLine(quantity, cart.products[i].quantity)
      then r.products == cart.products[..i] + cart.products[i + 1..]
      else |r.products| == |cart.products| &&
           r.products[i] == cart.products[i].(quantity := cart.products[i].quantity - quantity.value) &&
           forall j :: 0 <= j < |cart.products| && j != i ==> r.products[j] == cart.products[j]
  {
    match FindProductById(cart.products, productId)
    case None => cart
    case Some(i) =>
      var line := cart.products[i];
      if RemovesWholeLine(quantity, line.quantity)
      then cart.(products := cart.products[..i] + cart.products[i + 1..])
      else cart.(products := cart.products[i := line.(quantity := line.quantity - quantity.value)])
  }

  // ---------------------------------------------------------------------------
  // The cart as a bag: product id -> quantity
  // ---------------------------------------------------------------------------

  /** The quantity held for each product id (the first line wins). */
  function Bag(lines: seq<CartLine>): map<int, int>
  {
    if |lines| == 0 then map[]
    else Bag(lines[1..])[lines[0].productId := lines[0].quantity]
  }

  /** The bag's keys are exactly the products present in the cart. */
  lemma {:induction false} BagKeys(lines: seq<CartLine>, productId: int)
    ensures productId in Bag(lines) <==> HasProduct(lines, productId)
    decreases |lines|
  {
    if |lines| > 0 {
      BagKeys(lines[1..], productId);
      if HasProduct(lines, productId) && lines[0].productId != productId {
        var i :| 0 <= i < |lines| && lines[i].productId == productId;
        assert lines[1..][i - 1].productId == productId;
      }
      if HasProduct(lines[1..], productId) {
        var i :| 0 <= i < |lines[1..]| && lines[1..][i].productId == productId;
        assert lines[i + 1].productId == productId;
      }
    }
  }

  /** In a valid cart no later line repeats the first line's product. */
  lemma HeadNotInTail(lines: seq<CartLine>)
    requires |lines| > 0 && Valid(lines)
    ensures !HasProduct(lines[1..], lines[0].productId)
  {
  }

  lemma {:induction false} BagAppend(lines: seq<CartLine>, line: CartLine)
    requires !HasProduct(lines, line.productId)
    ensures Bag(lines + [line]) == Bag(lines)[line.productId := line.quantity]
    decreases |lines|
  {
    if |lines| > 0 {
      assert (lines + [line])[1..] == lines[1..] + [line];
      assert lines[0].productId != line.productId;
      BagAppend(lines[1..], line);
    }
  }

  lemma {:induction false} BagUpdate(lines: seq<CartLine>, i: nat, line: CartLine)
    requires i < |lines| && Valid(lines)
    requires line.productId == lines[i].productId
    ensures Bag(lines[i := line]) == Bag(lines)[line.productId := line.quantity]
    decreases |lines|
  {
    if i > 0 {
      assert lines[i := line][1..] == lines[1..][i - 1 := line];
      BagUpdate(lines[1..], i - 1, line);
      assert lines[0].productId != line.productId;
    }
  }

  lemma {:induction false} BagRemoveAt(lines: seq<CartLine>, i: nat)
    requires i < |lines| && Valid(lines)
    ensures Bag(lines[..i] + lines[i + 1..]) == Bag(lines) - {lines[i].productId}
    decreases |lines|
  {
    var rest := lines[1..];
    HeadNotInTail(lines);
    BagKeys(rest, lines[0].productId);
    if i == 0 {
      Queries.DropAtHead(lines);
      assert Bag(lines) - {lines[0].productId} == Bag(rest);
    } else {
      var r := lines[..i] + lines[i + 1..];
      Queries.DropAtTail(lines, i);
      BagRemoveAt(rest, i - 1);
      assert lines[0].productId != lines[i].productId;
      assert Bag(r) == Bag(rest[..i - 1] + rest[i..])[lines[0].productId := lines[0].quantity];
      UpdateThenRemove(Bag(rest), lines[0].productId, lines[0].quantity, lines[i].productId);
    }
  }

  /** Setting one key and removing another commute. */
  lemma UpdateThenRemove(m: map<int, int>, k: int, v: int, j: int)
    requires k != j
    ensures m[k := v] - {j} == (m - {j})[k := v]
  {
  }

  /** Ids of a valid cart map back to their line. */
  lemma FindInValid(lines: seq<CartLine>, productId: int)
    requires Valid(lines)
    ensures HasProduct(lines, productId) <==> productId in Bag(lines)
    ensures HasProduct(lines, productId) ==>
      Bag(lines)[productId] == lines[FindProductById(lines, productId).value].quantity
  {
    BagKeys(lines, productId);
    if HasProduct(lines, productId) {
      var i := FindProductById(lines, productId).value;
      BagUpdate(lines, i, lines[i]);
      assert lines[i := lines[i]] == lines;
    }
  }

  // ---------------------------------------------------------------------------
  // Properties of the state machine
  // ---------------------------------------------------------------------------

  /** AddProduct keeps ids unique and quantities positive. */
  lemma AddPreservesValid(cart: Cart, product: Product, quantity: int)
    requires Valid(cart.products)
    ensures AddProduct(cart, product, quantity).Ok? ==> Valid(AddProduct(cart, product, quantity).value.products)
  {
  }

  /** RemoveProduct keeps ids unique and quantities positive. */
  lemma RemovePreservesValid(cart: Cart, productId: int, quantity: Option<int>)
    requires Valid(cart.products)
    ensures Valid(RemoveProduct(cart, productId, quantity).products)
  {
    var lines := cart.products;
    if HasProduct(lines, productId) {
      var i := FindProductById(lines, productId).value;
      if RemovesWholeLine(quantity, lines[i].quantity) {
        ValidRemoveAt(lines, i);
      }
    }
  }

  /** Deleting one line of a valid cart leaves a valid cart. */
  lemma ValidRemoveAt(lines: seq<CartLine>, i: nat)
    requires i < |lines| && Valid(lines)
    ensures Valid(lines[..i] + lines[i + 1..])
  {
    var r := lines[..i] + lines[i + 1..];
    forall a | 0 <= a < |r| ensures r[a] == lines[if a < i then a else a + 1] { }
  }

  /** On a valid cart, AddProduct raises the bag count of the product by `quantity` and
      touches no other product. */
  lemma AddMatchesBag(cart: Cart, product: Product, quantity: int)
    requires Valid(cart.products) && quantity > 0
    ensures var m := Bag(cart.products);
      Bag(AddProduct(cart, product, quantity).value.products)
        == m[product.id := (if product.id in m then m[product.id] else 0) + quantity]
  {
    var lines := cart.products;
    FindInValid(lines, product.id);
    if HasProduct(lines, product.id) {
      var i := FindProductById(lines, product.id).value;
      BagUpdate(lines, i, lines[i].(quantity := lines[i].quantity + quantity));
    } else {
      BagAppend(lines, CartLine(product.id, quantity, product, cart.id));
    }
  }

  /** On a valid cart, RemoveProduct drops the product from the bag or lowers its count,
      and touches no other product. */
  lemma RemoveMatchesBag(cart: Cart, productId: int, quantity: Option<int>)
    requires Valid(cart.products)
    ensures var m := Bag(cart.products);
      Bag(RemoveProduct(cart, productId, quantity).products)
        == if productId !in m then m
           else if RemovesWholeLine(quantity, m[productId]) then m - {productId}
           else m[productId := m[productId] - quantity.value]
  {
    var lines := cart.products;
    FindInValid(lines, productId);
    if HasProduct(lines, productId) {
      var i := FindProductById(lines, productId).value;
      if RemovesWholeLine(quantity, lines[i].quantity) {
        BagRemoveAt(lines, i);
      } else {
        BagUpdate(lines, i, lines[i].(quantity := lines[i].quantity - quantity.value));
        assert RemoveProduct(cart, productId, quantity).products
          == lines[i := lines[i].(quantity := lines[i].quantity - quantity.value)];
      }
    }
  }

  /** Adding a positive quantity and then removing the same quantity restores the lines. */
  lemma AddThenRemoveRestores(cart: Cart, product: Product, quantity: int)
    requires Valid(cart.products) && quantity > 0
    ensures RemoveProduct(AddProduct(cart, product, quantity).value, product.id, Some(quantity)) == cart
  {
    if HasProduct(cart.products, product.id) {
      RaiseThenLowerRestores(cart, FindProductById(cart.products, product.id).value, quantity);
    } else {
      AppendThenDropRestores(cart, CartLine(product.id, quantity, product, cart.id));
    }
  }

  /** Raising the line found for an id and lowering it again by the same amount restores the lines. */
  lemma RaiseThenLowerRestores(cart: Cart, i: nat, quantity: int)
    requires i < |cart.products| && quantity > 0 && cart.products[i].quantity >= 1
    requires FindProductById(cart.products, cart.products[i].productId) == Some(i)
    ensures RemoveProduct(cart.(products := cart.products[i := cart.products[i].(quantity := cart.products[i].quantity + quantity)]),
                          cart.products[i].productId, Some(quantity)).products == cart.products
  {
    var lines := cart.products;
    var line := lines[i].(quantity := lines[i].quantity + quantity);
    FindAfterUpdate(lines, i, line);
    LowerFound(cart.(products := lines[i := line]), lines[i].productId, i, quantity);
    var r := RemoveProduct(cart.(products := lines[i := line]), lines[i].productId, Some(quantity));
    assert r.products == lines[i := line][i := line.(quantity := line.quantity - quantity)];
    assert line.(quantity := line.quantity - quantity) == lines[i];
    UpdateBack(lines, i, line);
    assert r.products == lines;
    assert line == cart.products[i].(quantity := cart.products[i].quantity + quantity);
    assert r == RemoveProduct(cart.(products := cart.products[i := cart.products[i].(quantity := cart.products[i].quantity + quantity)]),
                          cart.products[i].productId, Some(quantity));
  }

  /** Writing a line back over its replacement restores the sequence. */
  lemma UpdateBack<T>(s: seq<T>, i: nat, x: T)
    requires i < |s|
    ensures s[i := x][i := s[i]] == s
  {
  }

  /** Removing fewer units than the found line holds lowers that line in place. */
  lemma LowerFound(cart: Cart, productId: int, i: nat, k: int)
    requires FindProductById(cart.products, productId) == Some(i)
    requires 0 < k < cart.products[i].quantity
    ensures RemoveProduct(cart, productId, Some(k)).products
         == cart.products[i := cart.products[i].(quantity := cart.products[i].quantity - k)]
  {
  }

  /** Appending a line for a new id and deleting that id again restores the cart. */
  lemma AppendThenDropRestores(cart: Cart, line: CartLine)
    requires !HasProduct(cart.products, line.productId)
    ensures RemoveProduct(cart.(products := cart.products + [line]), line.productId, Some(line.quantity)) == cart
  {
    var lines := cart.products;
    FindAtEnd(lines, line);
    assert (lines + [line])[..|lines|] + (lines + [line])[|lines| + 1..] == lines;
  }

  /** Replacing the line found for an id by another line for that id keeps it found there. */
  lemma FindAfterUpdate(lines: seq<CartLine>, i: nat, line: CartLine)
    requires FindProductById(lines, line.productId) == Some(i)
    ensures FindProductById(lines[i := line], line.productId) == Some(i)
  {
    var u := lines[i := line];
    assert u[i].productId == line.productId;
    var k := FindProductById(u, line.productId).value;
    if k < i {
      assert false;
    } else if k > i {
      assert false;
    }
  }

  /** A line for a new id appended to the cart is found at the end. */
  lemma FindAtEnd(lines: seq<CartLine>, line: CartLine)
    requires !HasProduct(lines, line.productId)
    ensures FindProductById(lines + [line], line.productId) == Some(|lines|)
  {
    var u := lines + [line];
    assert HasProduct(u, line.productId) by { assert u[|lines|].productId == line.productId; }
    var k := FindProductById(u, line.productId).value;
    if k != |lines| {
      assert false;
    }
  }

  // ---------------------------------------------------------------------------
  // Money
  // ---------------------------------------------------------------------------

  /** Raising a line's quantity by `k` raises its total by price times `k`. */
  lemma TotalPriceStep(line: CartLine, k: int)
    ensures TotalPrice(line.(quantity := line.quantity + k)) == TotalPrice(line) + line.product.price * k
  {
  }

  /** A line's total is non-negative for non-negative price and quantity, and zero
      exactly when the price or the quantity is zero. */
  lemma TotalPriceSign(line: CartLine)
    ensures line.product.price >= 0 && line.quantity >= 0 ==> TotalPrice(line) >= 0
    ensures TotalPrice(line) == 0 <==> line.product.price == 0 || line.quantity == 0
  {
  }

  lemma {:induction false} TotalAmountAppend(a: seq<CartLine>, b: seq<CartLine>)
    ensures TotalAmount(a + b) == TotalAmount(a) + TotalAmount(b)
    decreases |a|
  {
    if |a| == 0 {
      assert a + b == b;
    } else {
      assert (a + b)[1..] == a[1..] + b;
      TotalAmountAppend(a[1..], b);
    }
  }

  lemma TotalAmountUpdate(lines: seq<CartLine>, i: nat, line: CartLine)
    requires i < |lines|
    ensures TotalAmount(lines[i := line]) == TotalAmount(lines) - TotalPrice(lines[i]) + TotalPrice(line)
  {
    Queries.SplitAt(lines, i);
    Queries.SplitAt(lines[i := line], i);
    assert lines[i := line][..i] == lines[..i] && lines[i := line][i + 1..] == lines[i + 1..];
    TotalAmountAppend(lines[..i] + [lines[i]], lines[i + 1..]);
    TotalAmountAppend(lines[..i], [lines[i]]);
    TotalAmountAppend(lines[..i] + [line], lines[i + 1..]);
    TotalAmountAppend(lines[..i], [line]);
  }

  /** The lines of a cart agree with the catalog on each product's price. */
  predicate PricedAs(lines: seq<CartLine>, product: Product)
  {
    forall i :: 0 <= i < |lines| && lines[i].productId == product.id ==> lines[i].product.price == product.price
  }

  /** AddProduct raises the cart total by the product's price times the quantity added. */
  lemma AddRaisesTotal(cart: Cart, product: Product, quantity: int)
    requires quantity > 0 && PricedAs(cart.products, product)
    ensures TotalAmount(AddProduct(cart, product, quantity).value.products)
      == TotalAmount(cart.products) + product.price * quantity
  {
    var lines := cart.products;
    var added := AddProduct(cart, product, quantity).value.products;
    match FindProductById(lines, product.id)
    case None =>
      var line := CartLine(product.id, quantity, product, cart.id);
      assert added == lines + [line];
      TotalAmountAppend(lines, [line]);
      assert [line][1..] == [];
    case Some(i) =>
      var line := lines[i].(quantity := lines[i].quantity + quantity);
      assert added == lines[i := line];
      TotalAmountUpdate(lines, i, line);
      assert lines[i].product.price == product.price;
      TotalPriceStep(lines[i], quantity);
  }

  /** RemoveProduct lowers the cart total by the price of exactly the units it removes. */
  lemma RemoveLowersTotal(cart: Cart, productId: int, quantity: Option<int>)
    ensures var lines := cart.products;
      TotalAmount(RemoveProduct(cart, productId, quantity).products)
        == TotalAmount(lines) -
           (match FindProductById(lines, productId)
            case None => 0
            case Some(i) =>
              if RemovesWholeLine(quantity, lines[i].quantity) then TotalPrice(lines[i])
              else lines[i].product.price * quantity.value)
  {
    var lines := cart.products;
    match FindProductById(lines, productId)
    case None =>
    case Some(i) =>
      if RemovesWholeLine(quantity, lines[i].quantity) {
        TotalAmountRemoveAt(lines, i);
      } else {
        var line := lines[i].(quantity := lines[i].quantity - quantity.value);
        TotalAmountUpdate(lines, i, line);
        TotalPriceStep(lines[i], -quantity.value);
        assert lines[i].(quantity := lines[i].quantity + -quantity.value) == line;
      }
  }

  /** Deleting a line lowers the total by that line's total. */
  lemma TotalAmountRemoveAt(lines: seq<CartLine>, i: nat)
    requires i < |lines|
    ensures TotalAmount(lines[..i] + lines[i + 1..]) == TotalAmount(lines) - TotalPrice(lines[i])
  {
    Queries.SplitAt(lines, i);
    TotalAmountAppend(lines[..i] + [lines[i]], lines[i + 1..]);
    TotalAmountAppend(lines[..i], [lines[i]]);
    TotalAmountAppend(lines[..i], lines[i + 1..]);
    assert [lines[i]][1..] == [];
  }
}
