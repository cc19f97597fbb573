/**
 The REST adapter's mapper (ProductMapper) and the two records it converts
 between: the request body (no id) and the response body (all five fields).
 */
module Mapper {
  import opened Wrappers
  import opened Domain

  datatype ProductRequest = ProductRequest(
    name: string,
    description: Option<string>,
    price: Decimal,
    stockQuantity: int32)

  datatype ProductResponse = ProductResponse(
    id: Option<Uuid>,
    name: string,
    description: Option<string>,
    price: Decimal,
    stockQuantity: int32)

  /** A request becomes a product that has no id yet and carries the request's four fields. */
  function ToDomain(request: ProductRequest): (p: Product)
    ensures p.id.None?
    ensures p.name == request.name && p.description == request.description
    ensures p.price == request.price && p.stockQuantity == request.stockQuantity
  {
    Product(None, request.name, request.description, request.price, request.stockQuantity)
  }

  /** A product becomes a response carrying all five of its fields, id included. */
  function ToResponse(product: Product): (r: ProductResponse)
    ensures r.id == product.id && r.name == product.name && r.description == product.description
    ensures r.price == product.price && r.stockQuantity == product.stockQuantity
  {
    ProductResponse(product.id, product.name, product.description, product.price, product.stockQuantity)
  }

  /** Request to product to response keeps the four request fields and has no id. */
  lemma RequestRoundTrip(request: ProductRequest)
    ensures ToResponse(ToDomain(request)) ==
      ProductResponse(None, request.name, request.description, request.price, request.stockQuantity)
  {
  }

  /** Two products with the same response are the same product: the response loses nothing. */
  lemma ToResponseInjective(a: Product, b: Product)
    requires ToResponse(a) == ToResponse(b)
    ensures a == b
  {
  }

  /** Two requests that map to the same product are the same request. */
  lemma ToDomainInjective(a: ProductRequest, b: ProductRequest)
    requires ToDomain(a) == ToDomain(b)
    ensures a == b
  {
  }
}
