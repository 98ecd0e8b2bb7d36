/** The manager's in-memory state as a value, the effect of each of its
    operations on that value, and what those effects guarantee. */
module Catalog {
  import opened Products

  /** `this.products` and `this.nextId` of a ProductManager. */
  datatype CatalogState = CatalogState(products: seq<Product>, nextId: int)

  /** The state a freshly constructed manager starts from, before it loads. */
  const Initial := CatalogState([], 1)

  /** `load()`: a successful read replaces the records with the file's array
      and sets the next id to its length plus one; a failed read or parse
      (None) leaves the state as it was. */
  function Load(c: CatalogState, file: Option<seq<Product>>): (r: CatalogState)
    ensures file.None? ==> r == c
    ensures file.Some? ==> r.products == file.value && r.nextId == |file.value| + 1
  {
    match file
    case None => c
    case Some(s) => CatalogState(s, |s| + 1)
  }

  /** `addProduct(product)`: a code already present changes nothing; otherwise
      one record `{ id: nextId, ...product }` is appended and nextId grows. */
  function Add(c: CatalogState, f: Fields): (r: CatalogState)
    ensures HasCode(c.products, f.code) ==> r == c
    ensures !HasCode(c.products, f.code) ==>
              |r.products| == |c.products| + 1 &&
              r.products[..|c.products|] == c.products &&
              r.products[|c.products|] == Product(c.nextId, f) &&
              r.nextId == c.nextId + 1
  {
    if HasCode(c.products, f.code) then c
    else CatalogState(c.products + [Product(c.nextId, f)], c.nextId + 1)
  }

  /** `updateProduct(id, product)`: the first record with that id becomes
      `{ id, ...product }`; with no such record nothing changes. */
  function Update(c: CatalogState, id: int, f: Fields): (r: CatalogState)
    ensures r.nextId == c.nextId && |r.products| == |c.products|
    ensures (forall i :: 0 <= i < |c.products| ==> c.products[i].id != id) ==> r == c
    ensures var k := FindIndex(c.products, id);
            k != -1 ==>
              r.products[k] == Product(c.products[k].id, f) &&
              forall i :: 0 <= i < |c.products| && i != k ==> r.products[i] == c.products[i]
  {
    var k := FindIndex(c.products, id);
    if k == -1 then c
    else CatalogState(c.products[k := Product(id, f)], c.nextId)
  }

  /** `deleteProduct(id)`: `splice(index, 1)` on the first record with that
      id; with no such record nothing changes. */
  function Delete(c: CatalogState, id: int): (r: CatalogState)
    ensures r.nextId == c.nextId
    ensures (forall i :: 0 <= i < |c.products| ==> c.products[i].id != id) ==> r == c
    ensures var k := FindIndex(c.products, id);
            k != -1 ==>
              |r.products| == |c.products| - 1 &&
              r.products[..k] == c.products[..k] &&
              (forall i :: k <= i < |r.products| ==> r.products[i] == c.products[i + 1]) &&
              multiset(r.products) + multiset{c.products[k]} == multiset(c.products)
  {
    var k := FindIndex(c.products, id);
    if k == -1 then c
    else
      assert c.products == c.products[..k] + [c.products[k]] + c.products[k + 1..];
      CatalogState(c.products[..k] + c.products[k + 1..], c.nextId)
  }

  /** A run of `addProduct` calls, one per element of `fs`, in order. */
  function AddAll(c: CatalogState, fs: seq<Fields>): CatalogState
    decreases |fs|
  {
    if fs == [] then c else AddAll(Add(c, fs[0]), fs[1..])
  }

  /** Records from index `k` on are numbered by position (index i has id
      i + 1) and nextId is the length plus one, as `load` leaves it. */
  predicate NumberedFrom(c: CatalogState, k: nat)
  {
    c.nextId == |c.products| + 1 &&
    forall i :: k <= i < |c.products| ==> c.products[i].id == i + 1
  }

  // ---------------------------------------------------------------------
  // Codes

  /** `addProduct` keeps codes pairwise distinct. */
  lemma AddKeepsCodesDistinct(c: CatalogState, f: Fields)
    requires CodesDistinct(c.products)
    ensures CodesDistinct(Add(c, f).products)
  {
  }

  /** `deleteProduct` keeps codes pairwise distinct. */
  lemma DeleteKeepsCodesDistinct(c: CatalogState, id: int)
    requires CodesDistinct(c.products)
    ensures CodesDistinct(Delete(c, id).products)
  {
  }

  /** Every run of adds keeps codes pairwise distinct. */
  lemma {:induction false} AddAllKeepsCodesDistinct(c: CatalogState, fs: seq<Fields>)
    requires CodesDistinct(c.products)
    ensures CodesDistinct(AddAll(c, fs).products)
    decreases |fs|
  {
    if fs != [] {
      AddKeepsCodesDistinct(c, fs[0]);
      AddAllKeepsCodesDistinct(Add(c, fs[0]), fs[1..]);
    }
  }

  // ---------------------------------------------------------------------
  // Ids

  /** `load` numbers what it will append next: nothing loaded is claimed about
      the ids the file holds. */
  lemma LoadNumbersFromLength(c: CatalogState, s: seq<Product>)
    ensures NumberedFrom(Load(c, Some(s)), |s|)
  {
  }

  /** One add keeps the numbering from index k on. */
  lemma AddKeepsNumbering(c: CatalogState, k: nat, f: Fields)
    requires NumberedFrom(c, k)
    ensures NumberedFrom(Add(c, f), k)
  {
  }

  /** A run of adds keeps the numbering from index k on, and never changes the
      records that were there before it. */
  lemma {:induction false} AddAllKeepsNumbering(c: CatalogState, k: nat, fs: seq<Fields>)
    requires NumberedFrom(c, k)
    ensures NumberedFrom(AddAll(c, fs), k)
    ensures |c.products| <= |AddAll(c, fs).products|
    ensures AddAll(c, fs).products[..|c.products|] == c.products
    decreases |fs|
  {
    if fs != [] {
      var c' := Add(c, fs[0]);
      AddKeepsNumbering(c, k, fs[0]);
      AddAllKeepsNumbering(c', k, fs[1..]);
      var r := AddAll(c', fs[1..]);
      assert r.products[..|c.products|] == r.products[..|c'.products|][..|c.products|];
    }
  }

  /** Any run of adds after a successful load gives every record appended
      after the loaded ones the id equal to its position plus one. */
  lemma LoadThenAddsAreSequential(c: CatalogState, s: seq<Product>, fs: seq<Fields>)
    ensures var r := AddAll(Load(c, Some(s)), fs);
            |s| <= |r.products| && r.products[..|s|] == s &&
            forall i :: |s| <= i < |r.products| ==> r.products[i].id == i + 1
  {
    LoadNumbersFromLength(c, s);
    AddAllKeepsNumbering(Load(c, Some(s)), |s|, fs);
  }

  /** Starting from an empty catalog, any run of adds numbers the records
      1, 2, 3, ... in order, so their ids are pairwise distinct. */
  lemma AddsFromEmptyAreSequential(fs: seq<Fields>)
    ensures var r := AddAll(Initial, fs);
            (forall i :: 0 <= i < |r.products| ==> r.products[i].id == i + 1) &&
            IdsDistinct(r.products)
  {
    AddAllKeepsNumbering(Initial, 0, fs);
  }

  /** After an update of a present id, looking that id up yields the new
      record `{ id, ...fields }`. */
  lemma UpdateThenFind(c: CatalogState, id: int, f: Fields)
    requires exists i :: 0 <= i < |c.products| && c.products[i].id == id
    ensures Find(Update(c, id, f).products, id) == Some(Product(id, f))
  {
  }

  /** On a catalog numbered by position from the start, a successful add can
      be looked up under the id it was given. */
  lemma AddThenFind(c: CatalogState, f: Fields)
    requires NumberedFrom(c, 0) && !HasCode(c.products, f.code)
    ensures Find(Add(c, f).products, c.nextId) == Some(Product(c.nextId, f))
  {
  }

  /** Two adds with different codes on the empty catalog give ids 1 and 2. */
  lemma TwoAddsFromEmpty(a: Fields, b: Fields)
    requires a.code != b.code
    ensures AddAll(Initial, [a, b]) == CatalogState([Product(1, a), Product(2, b)], 3)
  {
    var c1 := CatalogState([Product(1, a)], 2);
    var c2 := CatalogState([Product(1, a), Product(2, b)], 3);
    assert Add(Initial, a) == c1;
    assert !HasCode(c1.products, b.code);
    assert Add(c1, b) == c2;
    assert [a, b][1..] == [b];
    assert [b][1..] == [];
    assert AddAll(c1, [b]) == AddAll(c2, []);
  }

  /** Deleting id 1 from the records numbered 1 and 2 leaves the second. */
  lemma DeleteFirstOfTwo(a: Fields, b: Fields)
    ensures Delete(CatalogState([Product(1, a), Product(2, b)], 3), 1) ==
            CatalogState([Product(2, b)], 3)
  {
    var s := [Product(1, a), Product(2, b)];
    assert FindIndex(s, 1) == 0;
    assert s[..0] + s[1..] == [Product(2, b)];
  }

  /** Ids are not unique in general: delete the first of two records, reload
      what was saved, add again, and the new record reuses the id of the
      record that remains. */
  lemma IdsCollideAfterDeleteAndReload(a: Fields, b: Fields, d: Fields)
    requires a.code != b.code && d.code != b.code
    ensures var seeded := AddAll(Initial, [a, b]);
            var deleted := Delete(seeded, 1);
            var reloaded := Load(deleted, Some(deleted.products));
            var r := Add(reloaded, d);
            r.products == [Product(2, b), Product(2, d)] && !IdsDistinct(r.products)
  {
    TwoAddsFromEmpty(a, b);
    DeleteFirstOfTwo(a, b);
    var reloaded := CatalogState([Product(2, b)], 2);
    assert !HasCode(reloaded.products, d.code);
    var r := Add(reloaded, d);
    assert r.products == [Product(2, b), Product(2, d)];
    assert r.products[0].id == r.products[1].id;
  }
}
