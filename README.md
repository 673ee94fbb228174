# Wishlist service — a Dafny model

This project models the business layer of a wishlist application: clients put
products on a personal wishlist, query it by client or by client and product,
and remove items. The service enforces two write rules — a client has at most
20 items, and never the same product twice — and turns empty query results into
a "not found" error. Item ids come from a counter that is incremented once per
allocation.

Structure, following the program:

- `model.dfy`, module `Model`: the `Item` record (`WishlistItem`) and the
  transient `Wishlist` grouping.
- `repository.dfy`, module `Repository`: the item collection as an ordered
  table (`seq<Item>`, insertion order). It holds look-up by id, the two derived
  queries, save as insert-or-overwrite by id, and delete by id, all as functions.
  It also holds the lemmas about filtering that the service proofs use.
- `service_spec.dfy`, module `ServiceSpec`: the three read operations as
  functions over the table. `addWishlistItem` and `addWishlist` are transitions
  of a `State` (table plus counter). The module also states the invariant that
  the two write rules keep, and the lemmas about all of these.
- `wishlist_service.dfy`, module `Service`: class `WishlistService`. It has the
  table and the counter as fields, and the write operations as methods that
  change them step by step. `AddWishlistItem` and `AddWishlist` are proved equal
  to the `ServiceSpec` transitions `AddItem` and `AddAll`. `DeleteWishlistItemById`
  is tied to `Repository.DeleteById`, and `DeleteWishlist` empties the table.
  `GenerateSequence` increments the counter. Every write method keeps the
  invariant.

Errors are values: `Result<T> = Ok(value) | Err(error)` with
`Error = NotFound | BadRequest(reason)`, where `reason` is `QuotaExceeded` or
`DuplicateProduct`. This replaces the exceptions the source throws. The source
throws the same `BadRequestException` type for both rules and tells them apart
only by message, so the model keeps one `BadRequest` error with a reason.

## Model

| member | source | states |
|---|---|---|
| `Repository.FindById` | src/main/java/com/wishlist/service/WishlistService.java:22-23 | finds an item exactly when some stored item has that id, and what it finds is stored and has that id |
| `Repository.FindByClientId` | src/main/java/com/wishlist/domain/repository/WishlistRepository.java:10 | returns exactly the stored items of that client (how many times each occurs and their store order are stated by `FindByClientIdExact`) |
| `Repository.FindByClientIdAndProductId` | src/main/java/com/wishlist/domain/repository/WishlistRepository.java:11 | returns exactly the stored items with both that client and that product (how many times each occurs and their store order are stated by `FindByClientIdAndProductIdExact`) |
| `Repository.Save` | src/main/java/com/wishlist/service/WishlistService.java:42 | the saved item is stored afterwards; every item with another id stays; nothing else appears; the store grows by at most one, and overwriting an item with a stored id keeps the store's length (the old item goes) |
| `Repository.SaveFresh` | src/main/java/com/wishlist/service/WishlistService.java:41-42 | when no stored item has the item's id, save appends the item at the end of the store |
| `Repository.DeleteById` | src/main/java/com/wishlist/service/WishlistService.java:63-65 | afterwards the store holds exactly the old items whose id differs (how many times each occurs and their store order are stated by `DeleteByIdExact`); an absent id changes nothing |
| `Repository.DeleteByIdExact` | src/main/java/com/wishlist/service/WishlistService.java:63-65 | a delete by id keeps every occurrence of each item with another id, drops those with that id, and keeps store order (a subsequence of the store) |
| `Repository.DeleteByIdKeepsPairwise` | src/main/java/com/wishlist/service/WishlistService.java:63-65 | deleting by id keeps every "no two items clash" property of the store |
| `Repository.DeleteByIdShortensClient` | src/main/java/com/wishlist/service/WishlistService.java:63-65 | deleting by id never lengthens any client's list |
| `Repository.FindByClientIdExact` | src/main/java/com/wishlist/domain/repository/WishlistRepository.java:10 | the client query holds each of that client's stored items exactly as often as the store does, none of any other client, in store order (a subsequence of the store) |
| `Repository.FindByClientIdAndProductIdExact` | src/main/java/com/wishlist/domain/repository/WishlistRepository.java:11 | the client-and-product query holds each matching stored item exactly as often as the store does, nothing else, in store order (a subsequence of the store) |
| `Repository.FilterFirst` | src/main/java/com/wishlist/service/WishlistService.java:60 | the first result of a query is the first item in store order that matches it |
| `ServiceSpec.GetWishlistItemById` | src/main/java/com/wishlist/service/WishlistService.java:21-24 | succeeds exactly when an item with that id is stored and returns a stored item with that id; otherwise fails with NotFound |
| `ServiceSpec.GetByIdReturnsStored` | src/main/java/com/wishlist/service/WishlistService.java:21-24 | with unique ids, the look-up by a stored item's id returns that very item |
| `ServiceSpec.GetWishlistByClientId` | src/main/java/com/wishlist/service/WishlistService.java:45-53 | fails with NotFound exactly when no stored item belongs to the client; otherwise the wishlist is exactly the repository query's result: that client's items, each as often as stored, in store order |
| `ServiceSpec.GetWishlistByClientIdAndProductId` | src/main/java/com/wishlist/service/WishlistService.java:55-61 | succeeds exactly when some stored item matches both ids; returns the first such item in store order; otherwise fails with NotFound |
| `ServiceSpec.AtMostOneMatch` | src/main/java/com/wishlist/domain/repository/WishlistRepository.java:11 | when no client has a product twice, the client-and-product query returns at most one item |
| `ServiceSpec.HasProduct` | src/main/java/com/wishlist/service/WishlistService.java:35-37 | the duplicate scan is true exactly when some item of the list has that product; `AddItem` states that this test on the client's items decides the DuplicateProduct rejection |
| `ServiceSpec.AddItem` | src/main/java/com/wishlist/service/WishlistService.java:30-43 | a rejection is a BadRequest and leaves table and counter unchanged. It is QuotaExceeded exactly when the client has 20 or more items, checked first. It is DuplicateProduct exactly when the client has fewer than 20 items and one of them has the product. On success the counter advances by one, and the result is the item with the new id (client and product kept), which is then stored |
| `ServiceSpec.AddItemAppends` | src/main/java/com/wishlist/service/WishlistService.java:41-42 | when every stored id is below the counter, a successful add appends exactly the saved item at the end of the store, and the ids stay below the counter |
| `ServiceSpec.AddItemGrowsOnlyItsClient` | src/main/java/com/wishlist/service/WishlistService.java:31-42 | a successful add grows the client's list by exactly the saved item (its count by one) and leaves every other client's list unchanged |
| `ServiceSpec.AddItemPreservesInvariant` | src/main/java/com/wishlist/service/WishlistService.java:31-42 | ids stay unique and no larger than the counter; every client stays at 20 items or fewer with no repeated product |
| `ServiceSpec.AddThenRead` | src/main/java/com/wishlist/service/WishlistService.java:30-61 | after a successful add, the new item is found by its id, by its client and product, and in its client's wishlist after the items the client already had |
| `ServiceSpec.AddAll` | src/main/java/com/wishlist/service/WishlistService.java:26-28 | the batch add fails only with a BadRequest; what it does on success and on failure is stated by `AddAllSucceeds` and `AddAllStopsAtFirstFailure` |
| `ServiceSpec.AddAllCounterBounds` | src/main/java/com/wishlist/service/WishlistService.java:26-28 | the batch never moves the counter back and advances it at most once per element |
| `ServiceSpec.AddAllPreservesInvariant` | src/main/java/com/wishlist/service/WishlistService.java:26-28 | the batch add keeps the invariant however far it gets |
| `ServiceSpec.AddAllStopsAtFirstFailure` | src/main/java/com/wishlist/service/WishlistService.java:26-28 | a failed batch stopped at some element k. Every earlier element was added and stays saved. Element k was rejected with the reported error. Nothing after k was attempted |
| `ServiceSpec.AddAllAccepted` | src/main/java/com/wishlist/service/WishlistService.java:27 | once the first element is accepted, the batch goes on with the rest from the new state |
| `ServiceSpec.AddAllSucceeds` | src/main/java/com/wishlist/service/WishlistService.java:26-28 | when every stored id is below the counter, a successful batch of n items advanced the counter n times and appended the n items, in order, with ids old counter + 1 to old counter + n |
| `ServiceSpec.DeleteByIdPreservesInvariant` | src/main/java/com/wishlist/service/WishlistService.java:63-65 | deleting by id keeps the invariant |
| `ServiceSpec.DeleteByIdIdempotent` | src/main/java/com/wishlist/service/WishlistService.java:63-65 | deleting an id twice is the same as once, and afterwards that id is not found |
| `ServiceSpec.DeleteAllEmptiesEveryClient` | src/main/java/com/wishlist/service/WishlistService.java:67-69 | after the global delete, every client's wishlist is not found, and the invariant holds whatever the counter |
| `Service.WishlistService.constructor` | src/main/java/com/wishlist/service/WishlistService.java:14-19 | starts with an empty store and a counter at 0, which satisfies the invariant |
| `Service.WishlistService.GenerateSequence` | src/test/java/com/wishlist/service/SequenceGeneratorServiceTest.java:46-74 | increments the counter by one and returns the new value; keeps the invariant (ids stay at or below the counter) |
| `Service.WishlistService.AddWishlistItem` | src/main/java/com/wishlist/service/WishlistService.java:30-43 | the new table, counter and result are those of `AddItem`; keeps the invariant |
| `Service.WishlistService.AddWishlist` | src/main/java/com/wishlist/service/WishlistService.java:26-28 | the loop's final table, counter and result are those of `AddAll`; keeps the invariant |
| `Service.WishlistService.DeleteWishlistItemById` | src/main/java/com/wishlist/service/WishlistService.java:63-65 | the table becomes `DeleteById` of the old one, the counter is untouched, and the invariant is kept |
| `Service.WishlistService.DeleteWishlist` | src/main/java/com/wishlist/service/WishlistService.java:67-69 | the table becomes empty for all clients, the counter is untouched, and the invariant holds |

## Left out

- The HTTP controller, its routes, JSON bodies, fixed response messages and the mapping of exceptions to status codes: transport glue outside the service.
- The Mongo side of the id counter (find-and-modify, `$inc`, upsert, one document per sequence name): the counter is one integer field for the single sequence the service uses. Its atomicity under concurrent callers is not modelled.
- The counter's fallback to 1 when the store returns no document: a driver-failure path, not part of the service's logic.
- Service.WishlistService.GenerateSequence: the counter is an unbounded integer, so the 64-bit (`Long`) overflow after 2^63 - 1 allocations is not modelled.
- The unsynchronised read-then-write race between concurrent adds, which can exceed 20 items or store a duplicate: calls are modelled as sequential.
- The source sets the new id on the caller's own `WishlistItem` object (`setId`). The model returns a copy with the new id, so the aliasing is not captured.
- Bean-validation annotations (`@NotNull`) and null `clientId`, `productId` or `id`: these are plain integers. The creation date, which the source sets from the clock, is an opaque integer supplied with the item.
- The human-readable exception messages: each error is a `Reason` constructor.
- Spring Data's repository machinery: only the filter semantics of the two derived queries, `findById`, `save`, `deleteById` and `deleteAll` are modelled. Store order is taken to be insertion order: the store's natural order is only deterministic, not defined, but the code returns the first element of the query, so the model fixes one order.
