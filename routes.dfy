/** The decisions of the two HTTP routes, GET /products and
    GET /products/:pid, and the handlers that run them on the manager. */
module Routes {
  import opened Products
  import opened Catalog
  import opened Manager

  const NotFoundMessage := "Producto no encontrado"

  /** What `limit` in the query string decides: Absent when it is missing or
      the empty string (both falsy), NotANumber when `Number(limit)` is NaN,
      otherwise Given(n) with n the integer `slice` makes of `Number(limit)`. */
  datatype LimitQuery = Absent | NotANumber | Given(n: int)

  datatype Body =
    | ProductList(items: seq<Product>)
    | ProductBody(product: Product)
    | ErrorBody(error: string)

  datatype Response = Response(status: int, body: Body)

  /** Where `slice(0, end)` stops on an array of length `len`: a negative end
      counts back from the length, and the result is clamped to [0, len]. */
  function SliceEnd(len: nat, end: int): nat
  {
    if end < 0 then (if len + end < 0 then 0 else len + end)
    else if end < len then end
    else len
  }

  /** GET /products: always 200 with a prefix of the catalog; the whole list
      without a limit, `min(n, length)` records for a limit n >= 0, the length
      less |n| (at least none) for a negative n, nothing for NaN. */
  function ListRoute(products: seq<Product>, limit: LimitQuery): (r: Response)
    ensures r.status == 200 && r.body.ProductList?
    ensures r.body.items <= products
    ensures limit.Absent? ==> r.body.items == products
    ensures limit.NotANumber? ==> r.body.items == []
    ensures limit.Given? && 0 <= limit.n ==>
              |r.body.items| == (if limit.n < |products| then limit.n else |products|)
    ensures limit.Given? && limit.n < 0 ==>
              |r.body.items| == (if |products| + limit.n < 0 then 0 else |products| + limit.n)
  {
    match limit
    case Absent => Response(200, ProductList(products))
    case NotANumber => Response(200, ProductList(products[..0]))
    case Given(n) => Response(200, ProductList(products[..SliceEnd(|products|, n)]))
  }

  /** GET /products/:pid once the lookup is done: 200 with the record when
      there is one, otherwise 404 with the error payload. */
  function ProductRoute(product: Option<Product>): (r: Response)
    ensures r.status == 404 <==> product.None?
    ensures product.None? ==> r.body == ErrorBody(NotFoundMessage)
    ensures product.Some? ==> r.status == 200 && r.body == ProductBody(product.value)
  {
    match product
    case Some(p) => Response(200, ProductBody(p))
    case None => Response(404, ErrorBody(NotFoundMessage))
  }

  /** `?limit=1` on a non-empty catalog returns exactly its first record. */
  lemma LimitOneIsFirstRecord(products: seq<Product>)
    requires products != []
    ensures ListRoute(products, Given(1)).body.items == [products[0]]
  {
  }

  /** The lookup route answers 404 exactly when no record carries the id, and
      otherwise a record of the catalog whose id is the one asked for. */
  lemma ProductRouteByLookup(products: seq<Product>, id: int)
    ensures var r := ProductRoute(Find(products, id));
            (r.status == 404 <==> forall i :: 0 <= i < |products| ==> products[i].id != id) &&
            (r.status != 404 ==> r.status == 200 && r.body.product.id == id &&
                                 r.body.product in products)
  {
  }

  /** Starting from an empty backing file, the two seeds get ids 1 and 2.
      Each GET reloads the file first; reloading the array the saves wrote
      gives back the same state, on which the list route returns both seeds
      in order, /products/1 is the Televisor and /products/99 is 404. */
  lemma SeedScenario()
    ensures var c := AddAll(Load(Initial, Some([])), [Televisor, Licuadora]);
            c.products == [Product(1, Televisor), Product(2, Licuadora)] &&
            Load(c, Some(c.products)) == c &&
            ListRoute(c.products, Absent).body.items == c.products &&
            ProductRoute(Find(c.products, 1)) == Response(200, ProductBody(Product(1, Televisor))) &&
            ProductRoute(Find(c.products, 99)).status == 404
  {
    assert Load(Initial, Some([])) == Initial;
    TwoAddsFromEmpty(Televisor, Licuadora);
    var c2 := CatalogState([Product(1, Televisor), Product(2, Licuadora)], 3);
    assert FindIndex(c2.products, 1) == 0;
    assert Load(c2, Some(c2.products)) == c2;
  }

  /** A restart on a file that already holds both seeds adds nothing. */
  lemma ReseedIsNoOp(s: seq<Product>)
    requires HasCode(s, Televisor.code) && HasCode(s, Licuadora.code)
    ensures AddAll(Load(Initial, Some(s)), [Televisor, Licuadora]) == CatalogState(s, |s| + 1)
  {
    var c := Load(Initial, Some(s));
    assert [Televisor, Licuadora][1..] == [Licuadora];
    assert AddAll(c, [Licuadora]) == AddAll(c, []);
  }

  /** GET /products: reload, then apply the limit. */
  method ListHandler(m: ProductManager, file: Option<seq<Product>>, limit: LimitQuery)
    returns (resp: Response)
    modifies m
    ensures m.State() == Catalog.Load(old(m.State()), file)
    ensures resp == ListRoute(m.products, limit)
  {
    var products := m.GetProducts(file);
    resp := ListRoute(products, limit);
  }

  /** GET /products/:pid: reload, look the id up, answer 200 or 404. */
  method ProductHandler(m: ProductManager, file: Option<seq<Product>>, pid: int)
    returns (resp: Response)
    modifies m
    ensures m.State() == Catalog.Load(old(m.State()), file)
    ensures resp == ProductRoute(Find(m.products, pid))
  {
    var product := m.GetProductById(file, pid);
    resp := ProductRoute(product);
  }
}
