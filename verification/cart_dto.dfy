/** The cart's wire shape (API/Extensions/CartExtensions.cs `ToCartDto`). */
module CartDtos {
  import opened Entities
  import opened Carts

  /** One line of the cart as sent to the client. */
  datatype CartProductDto = CartProductDto(
    productId: int,
    name: string,
    price: int,
    totalPrice: int,
    pictureUrl: string,
    brand: string,
    productType: string,
    quantity: int
  )

  /** The cart as sent to the client. */
  datatype CartDto = CartDto(id: int, cartId: string, totalAmount: int, products: seq<CartProductDto>)

  /** Projection of one cart line. */
  function ToLineDto(line: CartLine): CartProductDto
  {
    CartProductDto(line.productId, line.product.name, line.product.price, TotalPrice(line),
                   line.product.pictureUrl, line.product.brand, line.product.productType, line.quantity)
  }

  /** The sum of the DTO lines' total prices. */
  function DtoTotal(lines: seq<CartProductDto>): int
  {
    if |lines| == 0 then 0 else lines[0].totalPrice + DtoTotal(lines[1..])
  }

  /** Every line projected, in order. */
  function LineDtos(lines: seq<CartLine>): (r: seq<CartProductDto>)
    ensures |r| == |lines|
    ensures forall i :: 0 <= i < |lines| ==> r[i] == ToLineDto(lines[i])
    ensures DtoTotal(r) == TotalAmount(lines)
  {
    if |lines| == 0 then [] else [ToLineDto(lines[0])] + LineDtos(lines[1..])
  }

  /** `ToCartDto`: copies the ids, projects every line in order, and carries the total. */
  function ToCartDto(cart: Cart): (r: CartDto)
    ensures r.id == cart.id && r.cartId == cart.cartId
    ensures |r.products| == |cart.products|
    ensures forall i :: 0 <= i < |cart.products| ==>
      && r.products[i].productId == cart.products[i].productId
      && r.products[i].quantity == cart.products[i].quantity
      && r.products[i].price == cart.products[i].product.price
      && r.products[i].totalPrice == cart.products[i].product.price * cart.products[i].quantity
    ensures r.totalAmount == DtoTotal(r.products)
  {
    CartDto(cart.id, cart.cartId, TotalAmount(cart.products), LineDtos(cart.products))
  }
}
