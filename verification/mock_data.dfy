/** The product record and the static data the dashboard is seeded with.
    Prices are held in integer cents: 1299.99 is 129999. */
module MockData {

  datatype Product = Product(id: string, name: string, category: string, price: int, stock: int)

  /** The known categories, in display order. */
  const Categories: seq<string> := [
    "Electronics",
    "Clothing",
    "Home & Kitchen",
    "Sports",
    "Books",
    "Toys",
    "Health & Beauty"
  ]

  /** The products every fresh load starts from. */
  const InitialProducts: seq<Product> := [
    Product("1", "Laptop Pro", "Electronics", 129999, 8),
    Product("2", "Wireless Headphones", "Electronics", 14999, 24),
    Product("3", "Smart Watch", "Electronics", 24999, 15),
    Product("4", "Cotton T-shirt", "Clothing", 1999, 100),
    Product("5", "Denim Jeans", "Clothing", 4999, 45),
    Product("6", "Winter Jacket", "Clothing", 8999, 12),
    Product("7", "Coffee Machine", "Home & Kitchen", 7999, 7),
    Product("8", "Blender", "Home & Kitchen", 3999, 18),
    Product("9", "Basketball", "Sports", 2999, 22),
    Product("10", "Yoga Mat", "Sports", 2499, 30),
    Product("11", "Novel Collection", "Books", 5999, 5),
    Product("12", "Programming Guide", "Books", 3499, 14),
    Product("13", "Action Figure", "Toys", 1499, 25),
    Product("14", "Board Game", "Toys", 2499, 9),
    Product("15", "Face Cream", "Health & Beauty", 1899, 32),
    Product("16", "Electric Toothbrush", "Health & Beauty", 4999, 11),
    Product("17", "Smartphone", "Electronics", 89999, 16),
    Product("18", "Dress Shirt", "Clothing", 3499, 28),
    Product("19", "Cooking Pot Set", "Home & Kitchen", 12999, 6),
    Product("20", "Tennis Racket", "Sports", 5999, 13),
    Product("21", "Science Fiction Book", "Books", 1999, 20),
    Product("22", "Building Blocks", "Toys", 2999, 27),
    Product("23", "Shampoo", "Health & Beauty", 999, 40),
    Product("24", "Tablet", "Electronics", 39999, 10)
  ]
}
