/** Product records of the catalog and the searches the manager runs over them. */
module Products {

  datatype Option<T> = None | Some(value: T)

  /** The descriptive fields a caller supplies when adding or updating a
      product: every key of a stored record except `id`. The price is a
      JavaScript number; the model only copies it. */
  datatype Fields = Fields(
    title: string,
    description: string,
    price: real,
    thumbnail: string,
    code: string,
    stock: int)

  /** A stored record `{ id, ...fields }`. */
  datatype Product = Product(id: int, fields: Fields)

  /** True when some record carries the given code (Array.prototype.some). */
  predicate HasCode(s: seq<Product>, code: string)
  {
    exists i :: 0 <= i < |s| && s[i].fields.code == code
  }

  /** Codes are pairwise distinct. */
  predicate CodesDistinct(s: seq<Product>)
  {
    forall i, j :: 0 <= i < j < |s| ==> s[i].fields.code != s[j].fields.code
  }

  /** Ids are pairwise distinct. */
  predicate IdsDistinct(s: seq<Product>)
  {
    forall i, j :: 0 <= i < j < |s| ==> s[i].id != s[j].id
  }

  /** Array.prototype.findIndex with the test `p.id === id`: the index of the
      first record whose id matches, scanning from the front, or -1. */
  function FindIndex(s: seq<Product>, id: int): (k: int)
    ensures -1 <= k < |s|
    ensures k == -1 <==> forall i :: 0 <= i < |s| ==> s[i].id != id
    ensures k != -1 ==> s[k].id == id && forall i :: 0 <= i < k ==> s[i].id != id
  {
    if |s| == 0 then -1
    else if s[0].id == id then 0
    else
      var k := FindIndex(s[1..], id);
      if k == -1 then -1 else k + 1
  }

  /** Array.prototype.find with the test `p.id === id`; None stands for the
      `undefined` that find yields and the `null` the manager returns. */
  function Find(s: seq<Product>, id: int): (r: Option<Product>)
    ensures r.None? <==> forall i :: 0 <= i < |s| ==> s[i].id != id
    ensures r.Some? ==> r.value.id == id
    ensures r.Some? ==> exists k :: 0 <= k < |s| && s[k] == r.value &&
                          forall i :: 0 <= i < k ==> s[i].id != id
  {
    var k := FindIndex(s, id);
    if k == -1 then None else Some(s[k])
  }
}
