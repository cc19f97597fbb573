/**
 The catalog service's id policy (ProductServiceImpl). The service holds no
 state and never touches the store; the Java methods set the id on the caller's
 object and return it, which on product values is returning the product with
 the new id.
 */
module ProductService {
  import opened Wrappers
  import opened Domain

  /**
   Fills in an id only when none is set. `generated` stands for the value
   `UUID.randomUUID()` returns at this call.
   */
  function CreateProduct(product: Product, generated: Uuid): (r: Product)
    ensures r.id.Some?
    ensures product.id.Some? ==> r.id == product.id
    ensures product.id.None? ==> r.id == Some(generated)
    ensures SameDetails(r, product)
  {
    if product.id.None? then product.(id := Some(generated)) else product
  }

  /** The id passed in always wins over whatever id the product carried. */
  function UpdateProduct(id: Uuid, product: Product): (r: Product)
    ensures r.id == Some(id)
    ensures SameDetails(r, product)
  {
    product.(id := Some(id))
  }

  /** Stub: reads go to the repository, not to the service. */
  function GetProductById(id: Uuid): (r: Option<Product>)
    ensures r.None?
  {
    None
  }

  /** Stub: listing goes to the repository, not to the service. */
  function GetAllProducts(): (r: seq<Product>)
    ensures |r| == 0
  {
    []
  }

  /** Stub: deletion goes to the repository, not to the service. */
  function DeleteProduct(id: Uuid): (r: bool)
    ensures !r
  {
    false
  }

  /** Creating an already created product changes nothing, whatever id is generated the second time. */
  lemma CreateProductIdempotent(product: Product, first: Uuid, second: Uuid)
    ensures CreateProduct(CreateProduct(product, first), second) == CreateProduct(product, first)
  {
  }

  /** A product that already has an id comes back exactly as it was. */
  lemma CreateProductKeepsIdentified(product: Product, generated: Uuid)
    requires product.id.Some?
    ensures CreateProduct(product, generated) == product
  {
  }

  /** The id a product carries into an update has no effect on the result. */
  lemma UpdateProductIgnoresIncomingId(id: Uuid, product: Product, other: Option<Uuid>)
    ensures UpdateProduct(id, product.(id := other)) == UpdateProduct(id, product)
  {
  }

  /** Updating twice under the same id is the same as updating once. */
  lemma UpdateProductIdempotent(id: Uuid, product: Product)
    ensures UpdateProduct(id, UpdateProduct(id, product)) == UpdateProduct(id, product)
  {
  }
}
