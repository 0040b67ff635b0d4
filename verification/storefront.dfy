/**
  The storefront's list transforms in main.js: the home-page sections, the
  name search box and the price sort of the all-products page. Each works on
  the fetched product array and leaves it as it was.
*/
module Storefront {
  import opened Products
  import Seqs
  import Sorting
  import Text

  const LaptopCategory: string := "laptop"

  /** "điện thoại" (phone), written with precomposed letters as in main.js. */
  const PhoneCategory: string := "\U{111}i\U{1EC7}n tho\U{1EA1}i"

  /** The hot section: exactly the products flagged `hot`, in order. */
  function HotSection(data: seq<Product>): (r: seq<Product>)
    ensures Seqs.IsSubsequence(r, data)
    ensures forall x :: multiset(r)[x] == if x.hot then multiset(data)[x] else 0
  {
    var keep := (p: Product) => p.hot;
    Seqs.FilterSpec(data, keep);
    Seqs.Filter(data, keep)
  }

  /** A category section: exactly the products whose category is `category`, in order. */
  function CategorySection(data: seq<Product>, category: string): (r: seq<Product>)
    ensures Seqs.IsSubsequence(r, data)
    ensures forall x :: multiset(r)[x] == if x.category == category then multiset(data)[x] else 0
  {
    var keep := (p: Product) => p.category == category;
    Seqs.FilterSpec(data, keep);
    Seqs.Filter(data, keep)
  }

  function LaptopSection(data: seq<Product>): (r: seq<Product>)
    ensures Seqs.IsSubsequence(r, data)
    ensures forall x :: multiset(r)[x] == if x.category == "laptop" then multiset(data)[x] else 0
  {
    CategorySection(data, LaptopCategory)
  }

  function PhoneSection(data: seq<Product>): (r: seq<Product>)
    ensures Seqs.IsSubsequence(r, data)
    ensures forall x :: multiset(r)[x] == if x.category == PhoneCategory then multiset(data)[x] else 0
  {
    CategorySection(data, PhoneCategory)
  }

  /** No product is both in the laptop section and in the phone section. */
  lemma {:induction false} SectionsDisjoint(data: seq<Product>, x: Product)
    ensures !(x in LaptopSection(data) && x in PhoneSection(data))
  {
    if x in LaptopSection(data) {
      assert x in multiset(LaptopSection(data));
      assert PhoneCategory[0] != LaptopCategory[0];
      assert x !in multiset(PhoneSection(data));
    }
  }

  /** `p.name.toLowerCase().includes(text.toLowerCase())`. */
  predicate NameHas(p: Product, text: string)
    ensures text == "" ==> NameHas(p, text)
    ensures NameHas(p, text) <==> exists i :: Text.OccursAt(Text.Lower(p.name), Text.Lower(text), i)
  {
    Text.Includes(Text.Lower(p.name), Text.Lower(text))
  }

  /** The search box: products whose lower-cased name contains the lower-cased text, in order. */
  function NameSearch(data: seq<Product>, text: string): (r: seq<Product>)
    ensures Seqs.IsSubsequence(r, data)
    ensures forall x :: multiset(r)[x] == if NameHas(x, text) then multiset(data)[x] else 0
    ensures text == "" ==> r == data
  {
    var keep := (p: Product) => NameHas(p, text);
    var r := Seqs.Filter(data, keep);
    Seqs.FilterSpec(data, keep);
    assert text == "" ==> r == data by {
      if text == "" {
        forall i | 0 <= i < |data| ensures NameHas(data[i], text) {
          assert Text.OccursAt(Text.Lower(data[i].name), Text.Lower(text), 0);
        }
        Seqs.FilterKeepsAll(data, keep);
      }
    }
    r
  }

  /**
    The price sort select, applied to a copy of the data: `'asc'` and `'desc'` sort
    by price (stably), anything else keeps the fetched order.
  */
  function SortByPrice(data: seq<Product>, choice: string): (r: seq<Product>)
    ensures multiset(r) == multiset(data)
    ensures choice == "asc" ==> forall i, j :: 0 <= i < j < |r| ==> r[i].price <= r[j].price
    ensures choice == "desc" ==> forall i, j :: 0 <= i < j < |r| ==> r[i].price >= r[j].price
    ensures choice != "asc" && choice != "desc" ==> r == data
  {
    if choice == "asc" then
      Sorting.SortIsSortedPermutation(Sorting.PriceAsc, data);
      Sorting.Sort(Sorting.PriceAsc, data)
    else if choice == "desc" then
      Sorting.SortIsSortedPermutation(Sorting.PriceDesc, data);
      Sorting.Sort(Sorting.PriceDesc, data)
    else
      data
  }
}
