# ProductManager catalog model

A Dafny model of the product catalog service in `app.js`: the
`ProductManager` class that keeps an ordered array of product records and a
`nextId` counter, and the decision logic of its two HTTP routes,
`GET /products` (optional `limit`) and `GET /products/:pid` (200 or 404).

- `products.dfy` (module `Products`): the record types and the searches the
  manager runs (`some` on codes, `find` and `findIndex` on ids).
- `catalog.dfy` (module `Catalog`): the manager's fields as a value
  `CatalogState`, the effect of each operation on it as a function, and the
  lemmas about those effects (code uniqueness, sequential ids for add-only
  histories, lookups after updates and adds, and an id collision after a
  delete and a reload).
- `manager.dfy` (module `Manager`): the class `ProductManager` with fields
  `products: seq<Product>` and `nextId: int`, methods that update them in
  place, each tied by its postcondition to the matching `Catalog` function;
  and the start-up that adds the two seed products.
- `routes.dfy` (module `Routes`): the limit rule (JavaScript `slice(0, n)`
  clamping, negative `n` counting back from the end), the found/not-found
  decision, the two handlers on the manager, and the start-up scenario.

The backing file is abstracted: a read of it is a parameter
`file: Option<seq<Product>>`, `None` when reading or parsing fails (the state
is then unchanged, as the `catch` leaves it). Writing the file has no effect
on the manager's fields and is not modelled.

Fields supplied to `addProduct` and `updateProduct` are modelled as a record
without an `id`: the object spreads `{ id: ..., ...product }` put the id first,
so an `id` key in the supplied object would override it; the model excludes
such an input. Prices are copied, never computed with, and modelled as `real`.

A negative `limit` makes `slice` drop records from the end, and a
non-numeric `limit` (NaN) returns an empty list (app.js:107-108).

## Model

| member | source | states |
|---|---|---|
| `Products.FindIndex` | app.js:43 | the index of the first record whose id matches, or -1 exactly when no record matches |
| `Products.Find` | app.js:33-39 | None exactly when no record has the id; otherwise the first matching record in order, whose id is the one asked for |
| `Catalog.Load` | app.js:62-70 | a successful read replaces the records and sets nextId to length + 1; a failed read leaves the state unchanged |
| `Catalog.Add` | app.js:15-24 | a code already present leaves records and nextId unchanged; otherwise exactly one record with id old nextId and the given fields is appended, earlier records are kept and nextId grows by 1 |
| `Catalog.Update` | app.js:42-50 | nextId and length unchanged; an absent id changes nothing; otherwise only the first matching index changes, to the given fields under the same id |
| `Catalog.Delete` | app.js:52-60 | nextId unchanged; an absent id changes nothing; otherwise the first matching record is removed, length drops by 1, the rest keep their order and the multiset loses exactly that record |
| `Catalog.AddKeepsCodesDistinct` | app.js:16-22 | pairwise distinct codes stay pairwise distinct after an add |
| `Catalog.DeleteKeepsCodesDistinct` | app.js:53-55 | pairwise distinct codes stay pairwise distinct after a delete |
| `Catalog.AddAllKeepsCodesDistinct` | app.js:16-22 | pairwise distinct codes stay pairwise distinct over any run of adds |
| `Catalog.LoadNumbersFromLength` | app.js:66 | after a successful load, nextId is the length plus one |
| `Catalog.AddKeepsNumbering` | app.js:21-22 | an add keeps "index i has id i + 1 from index k on, nextId is length + 1" |
| `Catalog.AddAllKeepsNumbering` | app.js:21-22 | any run of adds keeps that numbering and never changes the records present before it |
| `Catalog.LoadThenAddsAreSequential` | app.js:64-66 | after a load of n records, any run of adds keeps those n records and gives each record appended at index i the id i + 1 |
| `Catalog.AddsFromEmptyAreSequential` | app.js:10-11 | from the empty catalog with nextId 1, any run of adds gives index i the id i + 1, so ids are pairwise distinct |
| `Catalog.UpdateThenFind` | app.js:43-45 | updating a present id and then looking it up yields the new record under that id |
| `Catalog.AddThenFind` | app.js:21-22 | on a catalog numbered from index 0, a successful add is found under the id it was given |
| `Catalog.TwoAddsFromEmpty` | app.js:21-22 | two adds with different codes on the empty catalog give the records ids 1 and 2 and nextId 3 |
| `Catalog.DeleteFirstOfTwo` | app.js:53-55 | deleting id 1 from the records numbered 1 and 2 leaves only the second, with nextId still 3 |
| `Catalog.IdsCollideAfterDeleteAndReload` | app.js:55-66 | seeding two records, deleting the first, reloading and adding again yields two records with id 2 |
| `Manager.ProductManager.constructor` | app.js:8-13 | the new manager holds the state that loading from the empty catalog with nextId 1 gives |
| `Manager.ProductManager.AddProduct` | app.js:15-24 | the new state is `Catalog.Add` of the old one |
| `Manager.ProductManager.GetProducts` | app.js:26-29 | the state is reloaded and the records returned are the reloaded ones |
| `Manager.ProductManager.GetProductById` | app.js:31-40 | the state is reloaded and the result is the first reloaded record with the id, or None |
| `Manager.ProductManager.UpdateProduct` | app.js:42-50 | the new state is `Catalog.Update` of the old one, with no reload first |
| `Manager.ProductManager.DeleteProduct` | app.js:52-60 | the new state is `Catalog.Delete` of the old one, with no reload first |
| `Manager.ProductManager.Load` | app.js:62-70 | the new state is `Catalog.Load` of the old one |
| `Manager.Startup` | app.js:81-100 | a fresh manager on "./products.json" whose state is the loaded file followed by the adds of the two seeds |
| `Routes.ListRoute` | app.js:107-112 | always 200 with a prefix of the records: all of them without a limit, min(n, length) for n >= 0, length less abs(n) (at least none) for n < 0, none for NaN |
| `Routes.ProductRoute` | app.js:119-123 | 404 with the error payload exactly when the lookup found nothing, else 200 with the record |
| `Routes.LimitOneIsFirstRecord` | app.js:107-108 | `limit=1` on a non-empty catalog returns exactly the first record |
| `Routes.ProductRouteByLookup` | app.js:117-122 | the item route answers 404 exactly when no record has the id, and otherwise 200 with a catalog record whose id is the requested one |
| `Routes.SeedScenario` | app.js:84-100 | from an empty file the seeds PRO1 and PRO2 get ids 1 and 2; reloading what the saves wrote changes nothing, and on that state the list returns both in order, id 1 is the Televisor and id 99 is 404 |
| `Routes.ReseedIsNoOp` | app.js:84-100 | on a file that already holds both seed codes, the seeding adds nothing |
| `Routes.ListHandler` | app.js:103-113 | the manager reloads and the response is the limit rule applied to the reloaded records |
| `Routes.ProductHandler` | app.js:115-124 | the manager reloads and the response is the found/not-found decision on the lookup of the id |

## Left out

- `save` (app.js:72-78): writing the file does not change the manager's fields; the file contents after a mutation are not modelled.
- Reading and JSON parsing in `load` (app.js:64-65): the result is a parameter; a parsed value that is not an array of records (so that `length` is undefined) is not modelled.
- Records read from the file are assumed to have integer ids and the record fields; arbitrary JSON shapes are not modelled.
- Express routing, `req`/`res`, `app.listen` and the port (app.js:1-5, 126-128): only the response status and body are modelled.
- `console.log` diagnostics: they do not affect control flow.
- `Routes.ProductHandler`: `pid` is an integer; `Number(pid)` giving NaN or a fraction, which matches no integer id and so answers 404, is not modelled.
- `Routes.ListRoute`: `limit` values that `Number` turns into plus or minus Infinity are not modelled; fractional values are taken as already truncated toward zero, as `slice` does.
- An `id` key inside the fields passed to `addProduct` or `updateProduct`, which the spread would let override the assigned id.
- Concurrent requests racing on the whole-file overwrite.
