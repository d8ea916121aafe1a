/**
 * The records shared by the store and the pages: users, sellers, products
 * and cart lines (types/index.ts).  Optional properties become `Option`.
 */
module Types {
  import opened Wrappers

  datatype Role = Customer | Seller | Admin

  datatype User = User(
    id: int,
    email: string,
    fullName: string,
    role: Role,
    avatarUrl: Option<string>,
    createdAt: string)

  datatype SellerProfile = SellerProfile(
    id: int,
    userId: int,
    businessName: string,
    category: string,
    description: string,
    rating: real,
    totalReviews: int,
    verified: bool,
    createdAt: string)

  datatype Product = Product(
    id: int,
    sellerId: int,
    name: string,
    description: string,
    category: string,
    price: real,
    imageUrl: string,
    stock: int,
    rating: real,
    totalReviews: int,
    badge: Option<string>,
    createdAt: string)

  /** One line of the cart; `product` is the snapshot embedded when the line was created. */
  datatype CartItem = CartItem(
    id: int,
    userId: int,
    productId: int,
    quantity: int,
    product: Option<Product>)
}
