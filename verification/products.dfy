/**
  The product record shared by the admin catalog, the storefront and the cart,
  and the form data an admin submits to create or edit one.
*/
module Products {
  import Seqs

  /** A catalog entry. Prices are whole currency units. */
  datatype Product = Product(
    id: int,
    name: string,
    price: int,
    image: string,
    category: string,
    hot: bool,
    description: string)

  /** The fields an add or an update writes: everything but the id. */
  datatype Draft = Draft(
    name: string,
    price: int,
    image: string,
    category: string,
    hot: bool,
    description: string)

  /** The record an add or an update stores under `id`. */
  function FromDraft(id: int, d: Draft): (p: Product)
    ensures p.id == id
    ensures p.name == d.name && p.price == d.price && p.image == d.image
    ensures p.category == d.category && p.hot == d.hot && p.description == d.description
  {
    Product(id, d.name, d.price, d.image, d.category, d.hot, d.description)
  }

  function IdOf(p: Product): int
  {
    p.id
  }

  /** The ids of a product list, position by position. */
  function Ids(s: seq<Product>): (r: seq<int>)
    ensures |r| == |s|
    ensures forall i :: 0 <= i < |s| ==> r[i] == s[i].id
  {
    Seqs.Map(s, IdOf)
  }

  /** The catalog invariant: no two entries share an id. */
  predicate UniqueIds(s: seq<Product>)
  {
    Seqs.Distinct(Ids(s))
  }
}
