/**
 The `Product` entity of the domain layer (src/main/java/org/ph/domain/model/Product.java)
 and the value types its fields use.
 */
module Domain {
  import opened Wrappers

  /** A Java `int`. */
  newtype int32 = x: int | -0x8000_0000 <= x < 0x8000_0000

  /** A `java.util.UUID`: two 64-bit halves, equal exactly when both halves are. */
  datatype Uuid = Uuid(mostSigBits: bv64, leastSigBits: bv64)

  /**
   A `java.math.BigDecimal`, carried as an opaque value: the core never computes
   with a price, it only copies it. Equality, like `BigDecimal.equals`, compares
   the unscaled value and the scale.
   */
  datatype Decimal = Decimal(unscaledValue: int, scale: int32)

  /** A product; `id` is `None` until the catalog service assigns one. */
  datatype Product = Product(
    id: Option<Uuid>,
    name: string,
    description: Option<string>,
    price: Decimal,
    stockQuantity: int32)

  /** The two products agree on every field except the id. */
  predicate SameDetails(a: Product, b: Product) {
    && a.name == b.name
    && a.description == b.description
    && a.price == b.price
    && a.stockQuantity == b.stockQuantity
  }
}
