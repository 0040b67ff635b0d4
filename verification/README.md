# Product catalog admin and shopping cart, modelled in Dafny

This project models the state-and-list logic of a small storefront and its
admin panel, without any rendering or storage.

- **Admin catalog store** (`ProductAdmin` in admin.js):
  - The product list is a `seq<Product>`.
  - Each operation (add, update, delete, import, form submit) is a pure
    function from the list to the list the operation itself produces.
  - Every store method that changes the list then renders. So the list the
    program keeps is that result as the render leaves it (`AdminView.Stored`).
- **Admin list pipeline** (`render`): search, then category, then sort by
  id/price/name, then one page of ten items.
  - The model returns a `View` value: the catalog as the render leaves it, the
    sorted list, the page, and the page count.
- **Shopping cart** (`Cart` in main.js):
  - The cart is a `seq<Item>`. Each line is a copy of a product plus a quantity.
  - Operations: add-or-increment, set quantity, remove, clear, and total.
- **Storefront list transforms** (main.js): the hot/laptop/phone sections, the
  name search, and the ascending/descending price sort.

Modules, one per file:

| file | module | contents |
|---|---|---|
| results.dfy | `Results` | `Option` and `Result` |
| seqs.dfy | `Seqs` | order-preserving filter, subsequences, `findIndex`, distinctness, permutation facts |
| text.dfy | `Text` | ASCII lower-casing, substring search (`includes`), code-point string order |
| products.dfy | `Products` | the product record, the form draft, id lists |
| sorting.dfy | `Sorting` | the comparators and a stable sort |
| pagination.dfy | `Pagination` | `Math.ceil` page count, `Array.prototype.slice`, pages |
| catalog.dfy | `Catalog` | the admin store operations |
| admin_view.dfy | `AdminView` | the `render` pipeline |
| cart.dfy | `Cart` | the cart |
| storefront.dfy | `Storefront` | storefront sections, search and price sort |

In these places the model keeps the code's unexpected behaviour:

- **Search and category do not combine with AND.** A non-empty category filters
  the whole catalog and replaces the search result (admin.js:149-154).
  - So the rendered list need not be contained in the search result.
- **The catalog is reordered in place.** When neither filter is active, the sort
  reorders the catalog itself (admin.js:146, 157).
  - `AdminView.Render` returns that reordered catalog in `View.catalog`.
- **Every store change is followed by a render.** `addProduct`, an
  `importData` of an array, and `updateProduct` or `deleteProduct` of a present
  id end with `this.render()` (admin.js:72, 92, 104, 776).
  - An update or delete of an absent id, and a refused import, neither save nor
    render (admin.js:80, 101, 773-783). The catalog then stays exactly as it was,
    not `AdminView.Stored` of it.
  - With neither filter active, that render sorts the changed catalog in place.
  - So an added product need not stay at the end, and an updated one need not
    keep its index (`AdminView.AddIsReordered`).
- **A refused picker file never reaches the submit.** `handleFileUpload` repeats
  the image checks when a file is chosen, and clears the input when they fail
  (admin.js:618-629).
  - The submit then sees no file: an edit silently keeps the old image, and an
    add asks for one.
  - A dropped file stays in the input, because the drop handler passes a plain
    object as the event's target (admin.js:356-359). So only dropped files can
    make `handleFormSubmit` report a bad image.
  - A drop with no files, such as dragged text, changes nothing (admin.js:357).
    The input keeps what it held before.
- **Missing ids are ignored, not reported.** `updateProduct`, `deleteProduct`
  and `Cart.update` do nothing when the id is absent. They raise no not-found
  error.
- **Adding checks only the image.** `addProduct` validates no other field.
  - The only refusals come from the image rule in `handleFormSubmit`: not an
    image, over 5 MB, or no file when adding.
- **Import can fail in two ways.** It tells an unreadable file (JSON parse
  error) apart from a parsed value that is not an array. Only an array replaces
  the catalog.
- **An edit id of 0 counts as adding.** `currentEditId` is checked for
  truthiness, so a product with id 0 cannot be edited through the form: the
  submit takes the add branch.

## Model

| member | source | states |
|---|---|---|
| Catalog.MaxId | admin.js:59 | the value is at least 0 and at least every id, and is either 0 or one of the ids, i.e. `Math.max(...ids, 0)` |
| Catalog.AddProduct | admin.js:58-70 | exactly one product is appended and the old entries are untouched; it carries the draft's fields under the id `MaxId + 1`, which differs from every existing id, is 1 or one more than an existing id, and is 1 for an empty catalog; unique ids are preserved |
| Catalog.UpdateProduct | admin.js:78-89 | an absent id leaves the catalog unchanged; otherwise, in the list it returns before its closing render, only the first entry with that id is replaced, keeping its id and index and taking every other field from the draft; the id list is unchanged, so unique ids are preserved |
| Catalog.DeleteProduct | admin.js:99-102 | an absent id is a no-op; otherwise exactly the first entry with that id is cut out, the rest keep their order and the length drops by one; with unique ids the id is gone afterwards |
| Catalog.AddThenDelete | admin.js:58-102 | deleting the id that an add just assigned restores the original catalog |
| Catalog.MatchesIgnoresQueryCase | admin.js:113-115 | the search predicate gives the same answer for a query and its lower-cased form |
| Catalog.Matches | admin.js:113-115 | a product matches when the lower-cased query occurs somewhere in its lower-cased name or somewhere in its lower-cased description; the empty query matches every product |
| Catalog.SearchIgnoresCase | admin.js:111-116 | two queries that lower-case to the same text give the same search result |
| Catalog.SearchLaptopAnyCase | admin.js:111-116 | the query "LAPTOP" gives the same search result as "laptop" |
| Catalog.SearchProducts | admin.js:111-116 | an empty query returns the whole catalog; the result is an order-preserving subsequence holding every copy of each product whose lower-cased name or description contains the lower-cased query, and nothing else |
| Catalog.FilterByCategory | admin.js:120-122 | an empty category returns the whole catalog; the result is an order-preserving subsequence holding exactly the products whose category equals the argument |
| Catalog.ImportData | admin.js:768-786 | an array replaces the catalog wholesale with no error; anything else keeps the catalog and reports a format error (parsed, not an array) or a read error (unparsable) |
| Catalog.Acceptable | admin.js:554-564 | a chosen file passes exactly when its MIME type starts with `image/` and its size is at most 5 MB |
| Catalog.Editing | admin.js:576-597 | `currentEditId` is truthy: no id and id 0 mean adding, any other id means editing |
| Catalog.SubmitForm | admin.js:547-590 | with `files` the input's content at submit time: refused exactly when the first chosen file is not an image or exceeds 5 MB, or when no file is chosen while adding; adding uses the file's data URL; editing with a file updates with it; editing without a file is the update of the first product with that id, carrying that product's current image, so every other product is unchanged and an absent id changes nothing |
| Catalog.InputAfterSelect | admin.js:612-629 | a picker choice replaces the input's content, and empties it when the first file is not an image or is over 5 MB; a drop with files puts them in the input whatever they are; a drop with no files leaves the earlier content (admin.js:357) |
| Catalog.SelectThenSubmit | admin.js:612-629 | after a picker selection the submit never reports a bad image: a refused file makes it act as if no file was chosen; after a drop with files it sees the dropped files, and after an empty drop what the input held before |
| AdminView.OrderOf | admin.js:128-136 | `'name'` selects the name order, `'price'` the price order, and every other key, `'id'` included, the id order |
| AdminView.Filtered | admin.js:146-154 | the list before sorting is an order-preserving subsequence of the catalog: the category filter of the full catalog when a category is chosen, otherwise the search result |
| AdminView.SortProducts | admin.js:126-137 | the result is a permutation of the input, in order pairwise under the chosen comparator: nondecreasing price for `'price'`, nondecreasing id for `'id'` or any unrecognised key |
| AdminView.Render | admin.js:141-163 | the listed products are sorted; with a category they are a permutation of that category's filter of the full catalog; with only a search, of the search result; with neither, of the catalog, which is left in the listed order; the page count is the ceiling of the list length over 10; a page holds at most 10 items and is non-empty exactly when it is not past the page count |
| AdminView.Stored | admin.js:146-157 | the catalog kept after a store method's closing render: a permutation of the operation's result, sorted pairwise by the chosen key when neither filter is active and unchanged otherwise |
| AdminView.StoredUnfiltered | admin.js:146-157 | with neither filter active, the kept catalog is the stable sort of the operation's result by the chosen key |
| AdminView.AddThenStored | admin.js:58-72 | with neither filter active, the catalog kept after an add holds the old products plus the new one under id `MaxId + 1`, in sorted order |
| AdminView.AddIsReordered | admin.js:58-72 | sorting by price, a product added with a price between the two existing ones is kept in the middle, so the kept catalog differs from the list `addProduct` built |
| Sorting.SortThreeByPrice | admin.js:132-133 | the price comparator places a last product priced between the first two in the middle |
| AdminView.CategoryOverridesSearch | admin.js:149-154 | with a category chosen, changing the search text changes nothing in the render |
| AdminView.ListedMembers | admin.js:146-154 | a product is listed iff it is in the catalog and passes the filter in force: the category when one is chosen, otherwise the search text when one is typed |
| AdminView.RenderKeepsUniqueIds | admin.js:146-157 | a render only permutes the catalog, so the unique-id invariant survives it |
| AdminView.RenderPagesCoverListed | admin.js:160-163 | pages 1 to the page count, concatenated, are exactly the rendered list, and every page of a render is the corresponding slice of that list |
| Sorting.LeIsComparator | admin.js:127-136 | `a` may sort before `b` exactly when the comparator in force (`a.id - b.id`, `a.price - b.price`, `b.price - a.price`, or the name order standing in for `localeCompare`) returns zero or less |
| Sorting.LeTotal | admin.js:127-137 | every comparator in use orders any two products one way or the other |
| Sorting.LeTransitive | admin.js:127-137 | every comparator in use is transitive |
| Sorting.Insert | admin.js:127 | inserting into a sorted list keeps it sorted and adds exactly the one element |
| Sorting.Sort | admin.js:127 | the result is sorted and a permutation of the input |
| Sorting.SortedIsPairwise | admin.js:127 | a list sorted in neighbouring pairs is in order for every pair |
| Sorting.SortIsSortedPermutation | admin.js:127 | the sort result has the same elements and length as the input and is in order pairwise |
| Sorting.SortIsStable | admin.js:127 | products the comparator ties keep their relative order through the sort |
| Pagination.TotalPages | admin.js:160 | the page count is the least number of pages of the given size covering all items (`Math.ceil(n / size)`) |
| Pagination.Slice | admin.js:163 | `slice` takes the elements between its clamped start and end indices, negative indices counting from the end |
| Pagination.Page | admin.js:161-163 | page `p` holds at most `size` items, is the slice from `(p-1)*size` to `p*size` clamped to the list, and is non-empty exactly when `p` is at most the page count |
| Pagination.PagesPartition | admin.js:160-163 | pages 1 to the page count concatenate to the whole list, each is non-empty and at most `size` long, and every later page is empty |
| Pagination.PagesArePrefix | admin.js:161-163 | the first `k` pages, concatenated, are a prefix of the list |
| Cart.AddItem | main.js:49-52 | an id already present has its first line's quantity raised by one and nothing else changes; otherwise a copy of the product with quantity 1 is appended; one line per id and quantities of at least 1 are preserved |
| Cart.AtLeastOne | main.js:58 | `Math.max(1, qty)`: `qty` itself when it is at least 1, and 1 otherwise |
| Cart.Update | main.js:56-58 | an absent id leaves the cart unchanged; otherwise only the first matching line's quantity changes, to `max(1, qty)`; ids and the cart invariant are preserved |
| Cart.Remove | main.js:62-63 | keeps, in their original order, exactly the lines whose id differs; the id is gone afterwards and the cart invariant is preserved |
| Cart.Clear | main.js:68-69 | the cart is empty, valid, and totals 0 |
| Cart.ComputeTotal | main.js:73-74 | the `reduce` loop computes the sum of price times quantity over the lines |
| Cart.TotalAppend | main.js:73-74 | the total is additive over concatenation of line lists |
| Cart.TotalReplace | main.js:73-74 | replacing one line changes the total by the difference of the two line totals |
| Cart.AddItemTotal | main.js:49-52 | adding raises the total by one unit price: the product's price for a new line, or the price frozen in the existing line |
| Cart.AddExistingLine | main.js:50-51 | adding a product whose id is already in the cart raises the quantity of the first line with that id by one and changes nothing else |
| Cart.IncrementTotal | main.js:73-74 | one more of a line raises the total by that line's own (frozen) price |
| Cart.AddTwice | main.js:49-52 | adding a new product twice gives one line with quantity 2 and raises the total by twice its price |
| Cart.UpdateTotal | main.js:56-58 | setting a quantity changes the total by the line's price times the change in quantity |
| Cart.Total | main.js:73-74 | the `reduce` sum, running from the first line: an empty cart totals 0, and with non-negative prices and quantities the total is never negative |
| Cart.TotalFromFront | main.js:74 | the sum read from the front is the first line's price times quantity plus the total of the rest |
| Cart.TotalRemoveAt | main.js:73-74 | cutting out one line lowers the total by that line's total |
| Cart.RemoveFromValid | main.js:62-63 | in a valid cart, removing a present id drops exactly its one line and lowers the total by that line's total |
| Storefront.HotSection | main.js:175 | an order-preserving subsequence holding exactly the products flagged hot |
| Storefront.CategorySection | main.js:176-177 | an order-preserving subsequence holding exactly the products of the given category |
| Storefront.LaptopSection | main.js:176 | an order-preserving subsequence holding exactly the products of category `'laptop'` |
| Storefront.PhoneSection | main.js:177 | an order-preserving subsequence holding exactly the products of category `'điện thoại'` |
| Storefront.SectionsDisjoint | main.js:176-177 | no product appears in both the laptop and the phone section |
| Storefront.NameHas | main.js:187 | a product passes the search box when the lower-cased text occurs somewhere in its lower-cased name; the empty text passes every product |
| Storefront.NameSearch | main.js:186-188 | an order-preserving subsequence holding exactly the products whose lower-cased name contains the lower-cased text; an empty text keeps everything |
| Storefront.SortByPrice | main.js:189-193 | a permutation of the data: `'asc'` gives nondecreasing price, `'desc'` nonincreasing price, and any other value the original order |
| Text.Lower | admin.js:113-115 | lower-casing keeps the length, maps each ASCII capital to its small letter (code plus 32), and changes no other character |
| Text.LowerIdempotent | admin.js:113-115 | lower-casing twice is lower-casing once |
| Text.Includes | admin.js:114 | `includes` holds exactly when the needle occurs at some position of the haystack |
| Seqs.FirstIndex | admin.js:79 | `findIndex` gives -1 exactly when the value is absent, and otherwise its first position |
| Seqs.FilterSpec | admin.js:113 | `filter` yields an order-preserving subsequence whose elements all pass, holding every copy of each passing element and no other |

## Left out

- Rendering: DOM and HTML building, event wiring, modals, notifications and
  pagination buttons are not modelled.
  - `Render` takes the current page as a parameter.
  - `SubmitForm` takes the edited id as a parameter.
  - In the program, `currentEditId` is set by `openModal` for an edit, which
    `editProduct` calls (admin.js:407, 482), and by `confirmDelete` (458).
  - It is cleared by `openModal` for an add (411), by `closeModal` (451) and by
    `closeDeleteModal` (475).
- Persistence and network: `localStorage` and `fetch` (`loadProducts`,
  `saveProducts`, `Cart.save`, `fetchProducts`, `resetData`, the cart's
  constructor) are I/O and are not modelled.
  - Each operation returns the new list. Saving it is the caller's side effect.
- Browser file APIs: `FileReader`, data-URL creation (`createImageUrl`) and the
  `exportData` download are not modelled.
  - An upload is an abstract record: a MIME type, a size, and the data URL that
    reading it would yield.
  - The read-failure path of `createImageUrl` is not modelled.
- `formatFileSize` and the preview and label updates of `handleFileUpload` are
  display only and are not modelled. Its checks and its clearing of the input are
  modelled by `Catalog.InputAfterSelect`.
- Concurrency: the ordering of concurrent fetches is not modelled. Every model
  operation runs to completion.
  - `handleFormSubmit` awaits `createImageUrl` (admin.js:568) and reads
    `this.currentEditId` again afterwards (admin.js:593).
  - So closing the modal during the file read (`closeModal`, admin.js:451) turns
    an edit into an add.
  - `SubmitForm` reads its `editId` once, so it does not model that
    interleaving.
- Sorting.Le: the name order is plain code-point lexicographic order on
  strings: the order of Unicode scalar values, which differs from UTF-16
  code-unit order above U+FFFF. `localeCompare` uses locale collation, which
  is not modelled; the proofs rely only on its being a total preorder.
- Text.Lower: lowers only the ASCII letters A to Z. JavaScript's `toLowerCase`
  also lowers non-ASCII capitals, such as Vietnamese letters. So the search
  model misses matches that differ only in the case of non-ASCII letters: a
  query containing "Đ" finds no name containing "đ".
- Cart.Total: prices, quantities and ids are unbounded integers. JavaScript
  numbers are doubles, so sums and `max + 1` beyond 2^53 round, and
  `Math.max(...ids)` throws for very large catalogs; none of this is modelled.
- Conversions: `parseInt` (and the NaN price it can produce), `JSON.parse`,
  the `hot === 'on'` coercion, `description || ''`, and string/number id
  coercion (`Number(i.id)` in `remove`) are not modelled.
  - Ids, prices and quantities are integers from the start, and form fields
    arrive already converted.
  - So `remove`'s numeric comparison is plain integer equality.
  - The NaN quantity path of `update` is out of scope.
- Catalog.ImportData: the elements of an imported array are taken to be
  product records. The program copies any JSON array, whatever its elements,
  and does not check that ids are unique.
- Catalog.UpdateProduct: the program's spread (`...this.products[index]`)
  also keeps any extra fields an imported record carried. Products here have
  exactly the seven fields.
