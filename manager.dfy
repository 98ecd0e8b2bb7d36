/** The ProductManager object: the records and the id counter it updates in
    place, and the two seed products added at start-up. */
module Manager {
  import opened Products
  import opened Catalog

  class ProductManager {
    /** Where the backing file lives; only reading and writing it use it. */
    const path: string
    var products: seq<Product>
    var nextId: int

    /** The fields as a value, for the functions and lemmas of Catalog. */
    function State(): CatalogState
      reads this
    {
      CatalogState(products, nextId)
    }

    /** Starts with no records and id 1, then loads. `file` is what reading
        and parsing the backing file yields (None when either fails). */
    constructor (path: string, file: Option<seq<Product>>)
      ensures this.path == path
      ensures State() == Catalog.Load(Initial, file)
    {
      this.path := path;
      products := [];
      nextId := 1;
      new;
      Load(file);
    }

    method AddProduct(product: Fields)
      modifies this
      ensures State() == Add(old(State()), product)
    {
      if HasCode(products, product.code) {
        return;
      }
      var newProduct := Product(nextId, product);
      nextId := nextId + 1;
      products := products + [newProduct];
    }

    /** Reloads, then hands out the records. */
    method GetProducts(file: Option<seq<Product>>) returns (r: seq<Product>)
      modifies this
      ensures State() == Catalog.Load(old(State()), file)
      ensures r == products
    {
      Load(file);
      r := products;
    }

    /** Reloads, then looks the id up; None is the `null` for "not found". */
    method GetProductById(file: Option<seq<Product>>, id: int) returns (r: Option<Product>)
      modifies this
      ensures State() == Catalog.Load(old(State()), file)
      ensures r == Find(products, id)
    {
      Load(file);
      r := Find(products, id);
    }

    /** Works on the records in memory, without reloading first. */
    method UpdateProduct(id: int, product: Fields)
      modifies this
      ensures State() == Update(old(State()), id, product)
    {
      var index := FindIndex(products, id);
      if index != -1 {
        products := products[index := Product(id, product)];
      }
    }

    /** Works on the records in memory, without reloading first. */
    method DeleteProduct(id: int)
      modifies this
      ensures State() == Delete(old(State()), id)
    {
      var index := FindIndex(products, id);
      if index != -1 {
        products := products[..index] + products[index + 1..];
      }
    }

    method Load(file: Option<seq<Product>>)
      modifies this
      ensures State() == Catalog.Load(old(State()), file)
    {
      match file {
        case None =>
        case Some(data) =>
          products := data;
          nextId := |products| + 1;
      }
    }
  }

  const Televisor := Fields("Televisor", "Televisor de 42 pulgadas", 40000.0, "/", "PRO1", 20)
  const Licuadora := Fields("Licuadora", "Licuadora y procesadora multifunción", 30000.0, "/", "PRO2", 20)

  /** The process start-up: a manager on "./products.json", then the two seed
      products added in order. */
  method Startup(file: Option<seq<Product>>) returns (m: ProductManager)
    ensures fresh(m) && m.path == "./products.json"
    ensures m.State() == AddAll(Load(Initial, file), [Televisor, Licuadora])
  {
    m := new ProductManager("./products.json", file);
    ghost var loaded := m.State();
    m.AddProduct(Televisor);
    m.AddProduct(Licuadora);
    assert [Televisor, Licuadora][1..] == [Licuadora];
    assert AddAll(Add(loaded, Televisor), [Licuadora]) == AddAll(m.State(), []);
  }
}
