/**
  * The persisted entities of the storefront's API: products, users and their
  * shipping addresses. Timestamps are clock ticks supplied by the caller.
  */
module Entities {
  import opened Wrappers

  /** A catalog product. Prices are whole cents. */
  datatype Product = Product(
    id: int,
    name: string,
    category: string,
    description: string,
    price: int,
    pictureUrl: string,
    productType: string,
    brand: string,
    quantityInStock: int,
    businessType: string,
    discountAmount: Option<real>,
    discountStartUtc: Option<int>,
    discountEndUtc: Option<int>,
    tags: seq<string>,
    isActive: bool,
    isFeatured: bool,
    supplier: Option<string>,
    supplierId: Option<int>,
    soldQuantity: int,
    createdAt: int,
    updatedAt: Option<int>
  )

  /** The kind of account; `Code` is the enum's numeric value as serialised to the client. */
  datatype AccountType = Public | Business | Admin {
    function Code(): int
    {
      match this
      case Public => 0
      case Business => 1
      case Admin => 7
    }
  }

  /** Loyalty tier; `Code` is the enum's numeric value as serialised to the client. */
  datatype Tier = Bronze | Silver | Gold | Platinum {
    function Code(): int
    {
      match this
      case Bronze => 3
      case Silver => 2
      case Gold => 1
      case Platinum => 0
    }
  }

  /** A user's single shipping address. */
  datatype Address = Address(
    fullName: string,
    line1: string,
    line2: Option<string>,
    city: string,
    state: string,
    postalCode: string,
    country: string,
    phoneNumber: string,
    userId: string
  )

  /** A fresh address row for `userId`: every field empty except the country, "US". */
  function NewAddress(userId: string): Address
  {
    Address("", "", None, "", "", "", "US", "", userId)
  }

  /** An identity user with the storefront's extra profile fields. */
  datatype User = User(
    id: string,
    userName: string,
    email: string,
    accountType: AccountType,
    taxId: Option<string>,
    businessName: Option<string>,
    shippingAddress: Option<Address>,
    businessType: Option<string>,
    deliveryNotes: Option<string>,
    tier: Tier
  )

  /** A freshly constructed user: the declared defaults of every field not given; `id` is the fresh identifier the identity framework draws. */
  function NewUser(id: string, userName: string, email: string, accountType: AccountType,
                   businessName: Option<string>, taxId: Option<string>,
                   address: Option<Address>): (u: User)
    ensures u.id == id && u.userName == userName && u.email == email && u.accountType == accountType
    ensures u.businessName == businessName && u.taxId == taxId && u.shippingAddress == address
    ensures u.businessType == Some("") && u.deliveryNotes == Some("") && u.tier == Bronze
  {
    User(id, userName, email, accountType, taxId, businessName, address, Some(""), Some(""), Bronze)
  }
}
