# Product catalog core, modelled in Dafny

This project models the core of a small layered product-catalog service written in Java:

- **Store** (`InMemoryProductRepository`): a keyed table from product id to product. It offers upsert (`save`), lookup (`findById`), a snapshot of all entries (`findAll`), removal that reports whether anything was removed (`deleteById`) and a membership test (`existsById`).
- **Catalog service** (`ProductServiceImpl`): the id policy. `createProduct` fills in an id only when none is set. `updateProduct` overwrites the id with the one passed in. Its three read/delete methods are stubs that return constants.
- **Use-case facade** (`ProductUseCaseImpl`): runs the id policy and then the store. `updateProduct` first checks that the id is stored and returns "not found" otherwise.
- **Mapper** (`ProductMapper`): field copies between the REST request/response records and `Product`.

Layout, one module per source component:

- `wrappers.dfy` (`Wrappers`): the `Option` type for Java's `null` / `Optional.empty()`.
- `domain.dfy` (`Domain`): `Product`, `Uuid`, `Decimal`, `int32`.
- `product_service.dfy` (`ProductService`): the id policy as functions.
- `repository.dfy` (`Repository`): the store as a class over a `map<Uuid, Product>` field.
- `application.dfy` (`Application`): the facade as a class holding the store.
- `mapper.dfy` (`Mapper`): the request/response records and the two conversions.
- `lifecycle.dfy` (`Lifecycle`): client methods that run the integration scenarios against the facade's contracts.

The store's invariant `Valid()` says that every stored product sits under its own id. Every mutating method keeps it.

`UUID.randomUUID()` is not modelled as a generator. Each `CreateProduct` takes a parameter `generated`, standing for the value the call returned.

The code draws a random UUID (src/main/java/org/ph/application/service/impl/ProductServiceImpl.java:30) and never checks it against the store, so freshness is not a theorem here. `Application.ProductUseCaseImpl.CreateProduct` states both outcomes: the table grows by one when the id was new, and keeps its size (an overwrite) when it was not.

The service's read/delete methods are constant stubs and are modelled as the constants they return.

## Model

| member | source | states |
|---|---|---|
| ProductService.CreateProduct | src/main/java/org/ph/application/service/impl/ProductServiceImpl.java:28-37 | the result always has an id; a caller-supplied id is kept; a missing id becomes the generated one; name, description, price and stock are unchanged |
| ProductService.CreateProductIdempotent | src/main/java/org/ph/application/service/impl/ProductServiceImpl.java:29-31 | creating an already created product changes nothing, whatever id is generated the second time |
| ProductService.CreateProductKeepsIdentified | src/main/java/org/ph/application/service/impl/ProductServiceImpl.java:29 | a product that already has an id is returned exactly as it was |
| ProductService.UpdateProduct | src/main/java/org/ph/application/service/impl/ProductServiceImpl.java:72-79 | the result's id is the id passed in; all other fields are unchanged |
| ProductService.UpdateProductIgnoresIncomingId | src/main/java/org/ph/application/service/impl/ProductServiceImpl.java:74 | whatever id the product carried before has no effect on the result |
| ProductService.UpdateProductIdempotent | src/main/java/org/ph/application/service/impl/ProductServiceImpl.java:74 | updating twice under the same id equals updating once |
| ProductService.GetProductById | src/main/java/org/ph/application/service/impl/ProductServiceImpl.java:46-50 | the stub always answers empty |
| ProductService.GetAllProducts | src/main/java/org/ph/application/service/impl/ProductServiceImpl.java:58-62 | the stub always answers the empty list |
| ProductService.DeleteProduct | src/main/java/org/ph/application/service/impl/ProductServiceImpl.java:89-93 | the stub always answers false |
| Repository.InMemoryProductRepository.constructor | src/main/java/org/ph/infrastructure/adapter/repository/InMemoryProductRepository.java:22 | a new store is empty and valid |
| Repository.InMemoryProductRepository.Save | src/main/java/org/ph/infrastructure/adapter/repository/InMemoryProductRepository.java:31-34 | returns the product itself; the table afterwards maps its id to it (insert or overwrite) and every other key keeps its entry |
| Repository.InMemoryProductRepository.FindById | src/main/java/org/ph/infrastructure/adapter/repository/InMemoryProductRepository.java:43-45 | non-empty exactly when the id is stored; then it is the stored product, and that product carries the id asked for |
| Repository.InMemoryProductRepository.FindAll | src/main/java/org/ph/infrastructure/adapter/repository/InMemoryProductRepository.java:53-55 | as many entries as stored ids; each entry is the product stored under its own id; no id appears twice; every stored product appears |
| Repository.InMemoryProductRepository.DeleteById | src/main/java/org/ph/infrastructure/adapter/repository/InMemoryProductRepository.java:64-66 | true exactly when the id was stored; afterwards the id is absent and all other entries are unchanged; the size drops by one on true and the table is unchanged on false |
| Repository.InMemoryProductRepository.ExistsById | src/main/java/org/ph/infrastructure/adapter/repository/InMemoryProductRepository.java:75-77 | true exactly when the id is stored, which is exactly when FindById is non-empty |
| Repository.SaveAllCardinality | src/test/java/org/ph/infrastructure/adapter/repository/InMemoryProductRepositoryTest.java:79-100 | saving N products with new, distinct ids grows the table by exactly N; each is then found under its id; the table stays keyed by id |
| Repository.InMemoryProductRepository.SaveEach | src/main/java/org/ph/infrastructure/adapter/repository/InMemoryProductRepository.java:31-34 | successive saves of a batch leave the table that SaveAll describes, so the cardinality lemma applies to the store's own operation |
| Repository.SaveAllKeeps | src/main/java/org/ph/infrastructure/adapter/repository/InMemoryProductRepository.java:32 | saves under other ids leave an entry untouched |
| Application.ProductUseCaseImpl.constructor | src/main/java/org/ph/application/service/ProductUseCaseImpl.java:22-23 | the facade holds the given store |
| Application.ProductUseCaseImpl.CreateProduct | src/main/java/org/ph/application/service/ProductUseCaseImpl.java:32-38 | the result has an id (the supplied one if any, else the generated one) and the input's other fields; the store maps that id to it, overwriting any entry already there; the size grows by one exactly when the id was new |
| Application.ProductUseCaseImpl.GetProductById | src/main/java/org/ph/application/service/ProductUseCaseImpl.java:47-49 | the store's lookup, and the store is unchanged |
| Application.ProductUseCaseImpl.GetAllProducts | src/main/java/org/ph/application/service/ProductUseCaseImpl.java:57-59 | the store's snapshot: one entry per stored id, nothing missing, and the store is unchanged |
| Application.ProductUseCaseImpl.UpdateProduct | src/main/java/org/ph/application/service/ProductUseCaseImpl.java:69-79 | "not found" exactly when the id is absent, and then the store is unchanged; otherwise the result carries the id and the input's other fields, the store maps the id to it, and the key set and all other entries are unchanged |
| Application.ProductUseCaseImpl.DeleteProduct | src/main/java/org/ph/application/service/ProductUseCaseImpl.java:88-90 | true exactly when the id was stored; afterwards it is absent and nothing else changed |
| Lifecycle.FullProductLifecycle | src/test/java/org/ph/integration/ProductIntegrationTest.java:38-101 | create from a request gets the generated id; reading it back gives the created record; the listing contains it; the update keeps the id and takes the new fields; delete answers true; reading again gives empty; the store ends as it began without that id |
| Lifecycle.UpdateNotFound | src/test/java/org/ph/integration/ProductIntegrationTest.java:126-140 | updating an id that is not stored answers "not found" and leaves the store unchanged |
| Mapper.ToDomain | src/main/java/org/ph/infrastructure/adapter/rest/mapper/ProductMapper.java:21-28 | the product has no id and carries the request's name, description, price and stock |
| Mapper.ToResponse | src/main/java/org/ph/infrastructure/adapter/rest/mapper/ProductMapper.java:36-44 | the response carries all five fields of the product, id included |
| Mapper.RequestRoundTrip | src/main/java/org/ph/infrastructure/adapter/rest/mapper/ProductMapper.java:21-44 | request to product to response keeps the four request fields and has no id |
| Mapper.ToResponseInjective | src/main/java/org/ph/infrastructure/adapter/rest/mapper/ProductMapper.java:36-44 | the response loses nothing: equal responses come from equal products |
| Mapper.ToDomainInjective | src/main/java/org/ph/infrastructure/adapter/rest/mapper/ProductMapper.java:21-28 | equal products come from equal requests |

## Left out

- Concurrency of the `ConcurrentHashMap` backing the store: the store is modelled sequentially, one operation at a time.
- Application.ProductUseCaseImpl.UpdateProduct: the existence check and the save are two separate store calls with nothing atomic between them. A concurrent delete in between can bring a just-deleted record back. A sequential model cannot express that race.
- Object aliasing: `Product` is a value here. The Java service sets the id on the caller's object, and the store keeps the caller's reference, so a later change by the caller would show up in the store. That is not modelled.
- `UUID.randomUUID()`: modelled as a caller-supplied `generated` id. No randomness, no freshness guarantee.
- Repository.InMemoryProductRepository.Save: a product without an id makes the Java map throw a `NullPointerException`. It is modelled as a precondition (the facade always sets the id first), not as an error result.
- Null id arguments: every id parameter is a `Uuid`, never null. In Java a null id makes the store's `get`, `remove` and `containsKey` throw, so the facade's `updateProduct(null, p)` throws at its existence check, and the service's `updateProduct(null, p)` clears the product's id. The controller's `@PathVariable UUID id` is never null (src/main/java/org/ph/infrastructure/adapter/rest/ProductController.java:50,78,98), so no caller reaches these cases.
- Null `name` and `price`: both are non-optional here. The REST request validation rejects them before the core runs, and the core only copies them.
- `BigDecimal` price: an opaque value (unscaled value and scale). The core does no arithmetic or comparison on it. The "price ≥ 0" and "stock ≥ 0" checks live in the request annotations and are not modelled.
- The `ProductRepository`, `ProductUseCase` and `ProductService` interfaces: the facade holds the in-memory store directly, and the service is a set of functions. Swapping backends through an interface is not modelled.
- The HTTP controller (routing, status codes, JSON), Spring/Lombok wiring and the test harness.
