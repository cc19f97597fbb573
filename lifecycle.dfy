/**
 A client of the use-case facade that runs one product through its whole life:
 create from a request, read it back, list, update from a second request,
 delete, read again. What it ensures follows from the facade's contracts alone.
 */
module Lifecycle {
  import opened Wrappers
  import opened Domain
  import opened Mapper
  import opened Repository
  import opened Application

  method FullProductLifecycle(
    useCase: ProductUseCaseImpl,
    createRequest: ProductRequest,
    updateRequest: ProductRequest,
    generated: Uuid)
    returns (created: Product, fetched: Option<Product>, listed: seq<Product>,
             updated: Option<Product>, deleted: bool, afterDelete: Option<Product>)
    requires useCase.productRepository.Valid()
    modifies useCase.productRepository
    ensures useCase.productRepository.Valid()
    ensures created.id == Some(generated) && SameDetails(created, ToDomain(createRequest))
    ensures fetched == Some(created)
    ensures created in listed
    ensures updated.Some? && updated.value.id == Some(generated)
    ensures SameDetails(updated.value, ToDomain(updateRequest))
    ensures deleted
    ensures afterDelete == None
    ensures useCase.productRepository.products == old(useCase.productRepository.products) - {generated}
  {
    created := useCase.CreateProduct(ToDomain(createRequest), generated);
    fetched := useCase.GetProductById(generated);
    listed := useCase.GetAllProducts();
    updated := useCase.UpdateProduct(generated, ToDomain(updateRequest));
    deleted := useCase.DeleteProduct(generated);
    afterDelete := useCase.GetProductById(generated);
  }

  /** Updating an id that is not stored reports "not found" and leaves the store as it was. */
  method UpdateNotFound(useCase: ProductUseCaseImpl, missing: Uuid, request: ProductRequest)
    returns (updated: Option<Product>)
    requires useCase.productRepository.Valid()
    requires missing !in useCase.productRepository.products
    modifies useCase.productRepository
    ensures updated == None
    ensures useCase.productRepository.products == old(useCase.productRepository.products)
  {
    updated := useCase.UpdateProduct(missing, ToDomain(request));
  }
}
