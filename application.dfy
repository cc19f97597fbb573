/**
 The use-case facade (ProductUseCaseImpl): it runs the catalog service's id
 policy and then the store. It has no state of its own; every change it makes
 is to the store it holds.
 */
module Application {
  import opened Wrappers
  import opened Domain
  import ProductService
  import opened Repository

  class ProductUseCaseImpl {
    const productRepository: InMemoryProductRepository

    constructor (productRepository: InMemoryProductRepository)
      ensures this.productRepository == productRepository
    {
      this.productRepository := productRepository;
    }

    /**
     Assigns an id if there is none (`generated` is what `UUID.randomUUID()`
     returns) and saves. There is no existence check: a supplied id that is
     already stored is overwritten.
     */
    method CreateProduct(product: Product, generated: Uuid) returns (created: Product)
      requires productRepository.Valid()
      modifies productRepository
      ensures productRepository.Valid()
      ensures created.id.Some? && SameDetails(created, product)
      ensures product.id.Some? ==> created.id == product.id
      ensures product.id.None? ==> created.id == Some(generated)
      ensures productRepository.products == old(productRepository.products)[created.id.value := created]
      ensures created.id.value in old(productRepository.products) ==>
        |productRepository.products| == |old(productRepository.products)|
      ensures created.id.value !in old(productRepository.products) ==>
        |productRepository.products| == |old(productRepository.products)| + 1
    {
      var processed := ProductService.CreateProduct(product, generated);
      created := productRepository.Save(processed);
    }

    method GetProductById(id: Uuid) returns (found: Option<Product>)
      requires productRepository.Valid()
      ensures found.Some? <==> id in productRepository.products
      ensures found.Some? ==> found.value == productRepository.products[id] && found.value.id == Some(id)
    {
      found := productRepository.FindById(id);
    }

    method GetAllProducts() returns (all: seq<Product>)
      requires productRepository.Valid()
      ensures |all| == |productRepository.products|
      ensures forall i :: 0 <= i < |all| ==>
        all[i].id.Some? && all[i].id.value in productRepository.products &&
        productRepository.products[all[i].id.value] == all[i]
      ensures forall i, j :: 0 <= i < j < |all| ==> all[i].id != all[j].id
      ensures forall k :: k in productRepository.products ==> productRepository.products[k] in all
    {
      all := productRepository.FindAll();
    }

    /**
     Replaces the product stored under `id`, forcing its id to `id`; `None`
     (Java's `null`) when nothing is stored under `id`, in which case the store
     is not touched.
     */
    method UpdateProduct(id: Uuid, product: Product) returns (updated: Option<Product>)
      requires productRepository.Valid()
      modifies productRepository
      ensures productRepository.Valid()
      ensures updated.Some? <==> id in old(productRepository.products)
      ensures updated.None? ==> productRepository.products == old(productRepository.products)
      ensures updated.Some? ==> updated.value.id == Some(id) && SameDetails(updated.value, product)
      ensures updated.Some? ==> productRepository.products == old(productRepository.products)[id := updated.value]
      ensures productRepository.products.Keys == old(productRepository.products).Keys
    {
      var present := productRepository.ExistsById(id);
      if !present {
        return None;
      }
      var processed := ProductService.UpdateProduct(id, product);
      var saved := productRepository.Save(processed);
      updated := Some(saved);
    }

    method DeleteProduct(id: Uuid) returns (deleted: bool)
      requires productRepository.Valid()
      modifies productRepository
      ensures productRepository.Valid()
      ensures deleted <==> id in old(productRepository.products)
      ensures productRepository.products == old(productRepository.products) - {id}
    {
      deleted := productRepository.DeleteById(id);
    }
  }
}
