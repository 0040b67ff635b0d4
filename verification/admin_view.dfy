/**
  The list pipeline behind the admin table (`render` in admin.js): search, then
  category, then sort, then one page. Two quirks of the code are kept:
  - a non-empty category filters the whole catalog and replaces the search result,
    so the two filters do not combine;
  - the sort works in place, so when neither filter is active it reorders the
    catalog itself, and the catalog left behind is part of the result.
*/
module AdminView {
  import opened Products
  import Seqs
  import Sorting
  import Pagination
  import Catalog

  /** `this.itemsPerPage`. */
  const ItemsPerPage: nat := 10

  /** The `sortBy` select: `'name'` and `'price'` pick their comparator; anything else sorts by id. */
  function OrderOf(sortBy: string): (o: Sorting.Order)
    ensures o == Sorting.NameAsc <==> sortBy == "name"
    ensures o == Sorting.PriceAsc <==> sortBy == "price"
    ensures o == Sorting.IdAsc <==> sortBy != "name" && sortBy != "price"
  {
    if sortBy == "name" then Sorting.NameAsc
    else if sortBy == "price" then Sorting.PriceAsc
    else Sorting.IdAsc
  }

  /**
    `sortProducts`: a permutation of its input, in price order for `'price'`, in id
    order for `'id'` or any key it does not know, in name order for `'name'`.
  */
  function SortProducts(s: seq<Product>, sortBy: string): (r: seq<Product>)
    ensures multiset(r) == multiset(s)
    ensures Sorting.SortedPairwise(OrderOf(sortBy), r)
    ensures sortBy == "price" ==> forall i, j :: 0 <= i < j < |r| ==> r[i].price <= r[j].price
    ensures sortBy != "name" && sortBy != "price" ==> forall i, j :: 0 <= i < j < |r| ==> r[i].id <= r[j].id
  {
    Sorting.SortIsSortedPermutation(OrderOf(sortBy), s);
    Sorting.Sort(OrderOf(sortBy), s)
  }

  /**
    One render: the catalog as the render leaves it, the filtered and sorted
    list, the page shown, and the page count.
  */
  datatype View = View(catalog: seq<Product>, listed: seq<Product>, page: seq<Product>, totalPages: nat)

  /** The list before sorting: the search result, unless a category filter replaces it. */
  function Filtered(c: seq<Product>, query: string, category: string): (r: seq<Product>)
    ensures Seqs.IsSubsequence(r, c)
    ensures category != "" ==> r == Catalog.FilterByCategory(c, category)
    ensures category == "" ==> r == Catalog.SearchProducts(c, query)
  {
    Seqs.SubsequenceReflexive(c);
    var afterSearch := if query != "" then Catalog.SearchProducts(c, query) else c;
    if category != "" then Catalog.FilterByCategory(c, category) else afterSearch
  }

  function Render(c: seq<Product>, query: string, category: string, sortBy: string, currentPage: int): (v: View)
    ensures Sorting.SortedPairwise(OrderOf(sortBy), v.listed)
    ensures category != "" ==>
      v.catalog == c && multiset(v.listed) == multiset(Catalog.FilterByCategory(c, category))
    ensures category == "" && query != "" ==>
      v.catalog == c && multiset(v.listed) == multiset(Catalog.SearchProducts(c, query))
    ensures category == "" && query == "" ==>
      v.catalog == v.listed && multiset(v.listed) == multiset(c)
    ensures v.totalPages * ItemsPerPage >= |v.listed|
    ensures v.totalPages == 0 || (v.totalPages - 1) * ItemsPerPage < |v.listed|
    ensures currentPage >= 1 ==> |v.page| <= ItemsPerPage
    ensures currentPage >= 1 ==> (|v.page| > 0 <==> currentPage <= v.totalPages)
  {
    var filtered := Filtered(c, query, category);
    var listed := SortProducts(filtered, sortBy);
    var catalog := if query == "" && category == "" then listed else c;
    View(catalog, listed, Pagination.Page(listed, currentPage, ItemsPerPage),
         Pagination.TotalPages(|listed|, ItemsPerPage))
  }

  /** With a category chosen the search text has no effect on the render. */
  lemma {:induction false} CategoryOverridesSearch(c: seq<Product>, q1: string, q2: string, category: string, sortBy: string, currentPage: int)
    requires category != ""
    ensures Render(c, q1, category, sortBy, currentPage) == Render(c, q2, category, sortBy, currentPage)
  {
  }

  /** The rendered list holds exactly the products that pass the filter in force. */
  lemma {:induction false} ListedMembers(c: seq<Product>, query: string, category: string, sortBy: string, currentPage: int, x: Product)
    ensures var v := Render(c, query, category, sortBy, currentPage);
      x in v.listed <==>
        x in c
        && (category != "" ==> x.category == category)
        && (category == "" && query != "" ==> Catalog.Matches(x, query))
  {
    var v := Render(c, query, category, sortBy, currentPage);
    assert x in v.listed <==> x in multiset(v.listed);
    assert x in c <==> x in multiset(c);
  }

  /** Rendering may reorder the catalog but never breaks the unique-id invariant. */
  lemma {:induction false} RenderKeepsUniqueIds(c: seq<Product>, query: string, category: string, sortBy: string, currentPage: int)
    requires UniqueIds(c)
    ensures UniqueIds(Render(c, query, category, sortBy, currentPage).catalog)
    ensures multiset(Render(c, query, category, sortBy, currentPage).catalog) == multiset(c)
  {
    var v := Render(c, query, category, sortBy, currentPage);
    Seqs.MapPermutation(v.catalog, c, IdOf);
    Seqs.DistinctPermutation(Ids(v.catalog), Ids(c));
  }

  /** The pages of one render, in order, are the rendered list. */
  lemma {:induction false} RenderPagesCoverListed(c: seq<Product>, query: string, category: string, sortBy: string)
    ensures var v := Render(c, query, category, sortBy, 1);
      Pagination.Pages(v.listed, ItemsPerPage, v.totalPages) == v.listed
      && forall p :: p >= 1 ==> Render(c, query, category, sortBy, p).page == Pagination.Page(v.listed, p, ItemsPerPage)
  {
    var v := Render(c, query, category, sortBy, 1);
    Pagination.PagesPartition(v.listed, ItemsPerPage);
  }

  /**
    The catalog the program keeps after a store operation that changed it.
    `addProduct`, an `importData` of an array, and `updateProduct` or
    `deleteProduct` of an id that is present each end with `this.render()`, so what
    stays in `this.products` is the operation's result as that render leaves it:
    sorted in place when neither filter is active, untouched otherwise. An update or
    delete of an absent id, and a refused import, neither save nor render, so the
    catalog stays exactly as it was.
  */
  function Stored(c: seq<Product>, query: string, category: string, sortBy: string, currentPage: int): (r: seq<Product>)
    ensures multiset(r) == multiset(c)
    ensures query != "" || category != "" ==> r == c
    ensures query == "" && category == "" ==> Sorting.SortedPairwise(OrderOf(sortBy), r)
  {
    Render(c, query, category, sortBy, currentPage).catalog
  }

  /** With no filter active, an add keeps the old products plus the new one, in sorted order. */
  lemma {:induction false} AddThenStored(c: seq<Product>, d: Draft, sortBy: string, currentPage: int)
    ensures var r := Stored(Catalog.AddProduct(c, d), "", "", sortBy, currentPage);
      && multiset(r) == multiset(c) + multiset{FromDraft(Catalog.NextId(c), d)}
      && Sorting.SortedPairwise(OrderOf(sortBy), r)
  {
    var a := Catalog.AddProduct(c, d);
    assert a == a[..|c|] + [a[|c|]];
  }

  /** With no filter active, the stored catalog is the catalog sorted by the chosen key. */
  lemma {:induction false} StoredUnfiltered(c: seq<Product>, sortBy: string, currentPage: int)
    ensures Stored(c, "", "", sortBy, currentPage) == Sorting.Sort(OrderOf(sortBy), c)
  {
    assert Filtered(c, "", "") == c;
  }

  /**
    The render after an add can move the new product: sorting by price, a product
    priced between the two existing ones ends up in the middle, not at the end
    where `addProduct` put it.
  */
  lemma {:induction false} AddIsReordered(c: seq<Product>, d: Draft, currentPage: int)
    requires |c| == 2 && c[0].price <= d.price < c[1].price
    ensures var a := Catalog.AddProduct(c, d);
      && Stored(a, "", "", "price", currentPage) == [c[0], a[2], c[1]]
      && Stored(a, "", "", "price", currentPage) != a
  {
    var a := Catalog.AddProduct(c, d);
    assert a == [c[0], c[1], a[2]];
    StoredUnfiltered(a, "price", currentPage);
    Sorting.SortThreeByPrice(c[0], c[1], a[2]);
  }
}
