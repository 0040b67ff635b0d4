/**
  The admin catalog store (`ProductAdmin` in admin.js) without its rendering and
  storage: each operation takes the product list and returns the list the
  operation itself produces. The program then renders, which may sort that list
  in place; `AdminView.Stored` is the list the closing render leaves. Ids are
  compared with `===` on numbers, so as plain integers here.
*/
module Catalog {
  import opened Products
  import opened Results
  import Seqs
  import Text

  /** `Math.max(...ids, 0)`: the largest id, or 0 when no id is larger. */
  function MaxId(c: seq<Product>): (m: int)
    ensures m >= 0
    ensures forall i :: 0 <= i < |c| ==> c[i].id <= m
    ensures m == 0 || m in Ids(c)
  {
    if |c| == 0 then 0
    else
      var m := MaxId(c[..|c| - 1]);
      assert forall i :: 0 <= i < |c| - 1 ==> c[..|c| - 1][i] == c[i];
      var x := c[|c| - 1].id;
      if x > m then x else m
  }

  /** The id `addProduct` assigns. */
  function NextId(c: seq<Product>): int
  {
    MaxId(c) + 1
  }

  /** `addProduct`: appends one product built from `d` under a fresh id. */
  function AddProduct(c: seq<Product>, d: Draft): (r: seq<Product>)
    ensures |r| == |c| + 1 && r[..|c|] == c
    ensures r[|c|] == FromDraft(r[|c|].id, d)
    ensures r[|c|].id == MaxId(c) + 1
    ensures r[|c|].id !in Ids(c)
    ensures r[|c|].id >= 1 && (r[|c|].id == 1 || r[|c|].id - 1 in Ids(c))
    ensures |c| == 0 ==> r[0].id == 1
    ensures UniqueIds(c) ==> UniqueIds(r)
  {
    var r := c + [FromDraft(NextId(c), d)];
    assert Ids(r) == Ids(c) + [NextId(c)];
    r
  }

  /** `updateProduct`: rewrites every field but the id of the first product with that id. */
  function UpdateProduct(c: seq<Product>, id: int, d: Draft): (r: seq<Product>)
    ensures id !in Ids(c) ==> r == c
    ensures forall k :: Seqs.IsFirst(Ids(c), id, k) ==> r == c[k := FromDraft(id, d)]
    ensures Ids(r) == Ids(c)
    ensures UniqueIds(c) ==> UniqueIds(r)
  {
    var k := Seqs.FirstIndex(Ids(c), id);
    if k == -1 then c
    else
      var r := c[k := FromDraft(c[k].id, d)];
      assert Ids(r) == Ids(c);
      r
  }

  /** `deleteProduct`: removes the first product with that id and nothing else. */
  function DeleteProduct(c: seq<Product>, id: int): (r: seq<Product>)
    ensures id !in Ids(c) ==> r == c
    ensures forall k :: Seqs.IsFirst(Ids(c), id, k) ==> r == c[..k] + c[k + 1..]
    ensures id in Ids(c) ==> |r| == |c| - 1
    ensures UniqueIds(c) ==> UniqueIds(r) && id !in Ids(r)
  {
    var k := Seqs.FirstIndex(Ids(c), id);
    if k == -1 then c
    else
      var r := c[..k] + c[k + 1..];
      assert Ids(r) == Ids(c)[..k] + Ids(c)[k + 1..];
      r
  }

  /** Deleting the product an add just created gives back the catalog as it was. */
  lemma {:induction false} AddThenDelete(c: seq<Product>, d: Draft)
    ensures DeleteProduct(AddProduct(c, d), NextId(c)) == c
  {
    var r := AddProduct(c, d);
    assert Ids(r)[..|c|] == Ids(c);
    assert Seqs.IsFirst(Ids(r), NextId(c), |c|);
    assert r[..|c|] + r[|c| + 1..] == c;
  }

  /** The search predicate: the lower-cased query occurs in the lower-cased name or description. */
  predicate Matches(p: Product, query: string)
    ensures query == "" ==> Matches(p, query)
    ensures Matches(p, query) <==>
      (exists i :: Text.OccursAt(Text.Lower(p.name), Text.Lower(query), i))
      || (exists i :: Text.OccursAt(Text.Lower(p.description), Text.Lower(query), i))
  {
    Text.Includes(Text.Lower(p.name), Text.Lower(query))
    || Text.Includes(Text.Lower(p.description), Text.Lower(query))
  }

  /** The search ignores the case of ASCII letters in the query. */
  lemma {:induction false} MatchesIgnoresQueryCase(p: Product, query: string)
    ensures Matches(p, query) == Matches(p, Text.Lower(query))
  {
    Text.LowerIdempotent(query);
  }

  /** Two queries that lower-case alike select the same products, in the same order. */
  lemma {:induction false} SearchIgnoresCase(c: seq<Product>, q1: string, q2: string)
    requires Text.Lower(q1) == Text.Lower(q2)
    ensures SearchProducts(c, q1) == SearchProducts(c, q2)
  {
    assert |q1| == |Text.Lower(q1)| == |Text.Lower(q2)| == |q2|;
    if q1 != "" {
      var k1 := (p: Product) => Matches(p, q1);
      var k2 := (p: Product) => Matches(p, q2);
      assert forall p :: k1(p) == k2(p);
      Seqs.FilterSameTest(c, k1, k2);
    }
  }

  /** An upper-case query finds what its lower-case spelling finds. */
  lemma {:induction false} SearchLaptopAnyCase(c: seq<Product>)
    ensures SearchProducts(c, "LAPTOP") == SearchProducts(c, "laptop")
  {
    var l := Text.Lower("LAPTOP");
    assert forall i :: 0 <= i < 6 ==> Text.IsUpperAscii("LAPTOP"[i]);
    assert l == "laptop";
    assert Text.Lower("laptop") == "laptop";
    SearchIgnoresCase(c, "LAPTOP", "laptop");
  }

  /** `searchProducts`: the whole catalog for an empty query, otherwise the matching products in order. */
  function SearchProducts(c: seq<Product>, query: string): (r: seq<Product>)
    ensures Seqs.IsSubsequence(r, c)
    ensures forall x :: multiset(r)[x] == if query == "" || Matches(x, query) then multiset(c)[x] else 0
    ensures query == "" ==> r == c
  {
    if query == "" then
      Seqs.SubsequenceReflexive(c);
      c
    else
      var keep := (p: Product) => Matches(p, query);
      Seqs.FilterSpec(c, keep);
      Seqs.Filter(c, keep)
  }

  /** `filterByCategory`: the whole catalog for an empty category, otherwise the products of exactly that category in order. */
  function FilterByCategory(c: seq<Product>, category: string): (r: seq<Product>)
    ensures Seqs.IsSubsequence(r, c)
    ensures forall x :: multiset(r)[x] == if category == "" || x.category == category then multiset(c)[x] else 0
    ensures category == "" ==> r == c
  {
    if category == "" then
      Seqs.SubsequenceReflexive(c);
      c
    else
      var keep := (p: Product) => p.category == category;
      Seqs.FilterSpec(c, keep);
      Seqs.Filter(c, keep)
  }

  /** What `JSON.parse` made of an import file. */
  datatype ImportFile = Unparsable | NotAnArray | ProductArray(products: seq<Product>)

  datatype ImportError = ReadError | FormatError

  /**
    `importData`: an array replaces the catalog wholesale (its elements are not checked);
    anything else is refused and the catalog is kept.
  */
  function ImportData(c: seq<Product>, f: ImportFile): (r: (seq<Product>, Option<ImportError>))
    ensures r.1.None? <==> f.ProductArray?
    ensures f.ProductArray? ==> r.0 == f.products
    ensures !f.ProductArray? ==> r.0 == c
    ensures f.NotAnArray? ==> r.1 == Some(FormatError)
    ensures f.Unparsable? ==> r.1 == Some(ReadError)
  {
    match f
    case ProductArray(ps) => (ps, None)
    case NotAnArray => (c, Some(FormatError))
    case Unparsable => (c, Some(ReadError))
  }

  /** A chosen upload: its MIME type, its size in bytes, and the data URL reading it yields. */
  datatype UploadFile = UploadFile(mimeType: string, size: int, dataUrl: string)

  /** The form's fields other than the image. */
  datatype FormFields = FormFields(name: string, price: int, category: string, hot: bool, description: string)

  datatype FormError = NotAnImage | FileTooLarge | ImageRequired

  /** The upload size limit, 5 MB. */
  const MaxImageSize: int := 5 * 1024 * 1024

  function WithImage(f: FormFields, image: string): Draft
  {
    Draft(f.name, f.price, image, f.category, f.hot, f.description)
  }

  /** `if (this.currentEditId)`: an id is being edited only when it is present and not 0, which JavaScript reads as false. */
  predicate Editing(editId: Option<int>)
    ensures editId.None? ==> !Editing(editId)
    ensures editId == Some(0) ==> !Editing(editId)
    ensures editId.Some? && editId.value != 0 ==> Editing(editId)
  {
    editId.Some? && editId.value != 0
  }

  /** The upload checks: an image MIME type, and at most `MaxImageSize` bytes. */
  predicate Acceptable(f: UploadFile)
    ensures Acceptable(f) <==> |f.mimeType| >= 6 && f.mimeType[..6] == "image/" && f.size <= 5 * 1024 * 1024
  {
    "image/" <= f.mimeType && f.size <= MaxImageSize
  }

  /** How files reached the image input: chosen in the file picker, or dropped on the upload label. */
  datatype FileSource = Picker | Dropped

  /**
    `handleFileUpload`: the files the image input holds after a selection, which is
    what the form submit later reads. `current` is what the input held before.
    - A picker choice replaces the input's content. The first file gets the upload
      checks again, and when it fails them `e.target.value = ''` empties the input.
    - A drop with no files (dragged text, say) changes nothing: the handler acts only
      when `files.length > 0`.
    - Otherwise a drop stores the files in the input and then passes a plain object
      as the event's target, so the clearing leaves the dropped files in place.
  */
  function InputAfterSelect(current: seq<UploadFile>, files: seq<UploadFile>, source: FileSource): (r: seq<UploadFile>)
    ensures source == Picker && |files| > 0 && !Acceptable(files[0]) ==> r == []
    ensures source == Picker && (|files| == 0 || Acceptable(files[0])) ==> r == files
    ensures source == Dropped && |files| == 0 ==> r == current
    ensures source == Dropped && |files| > 0 ==> r == files
  {
    match source
    case Picker => if |files| > 0 && !Acceptable(files[0]) then [] else files
    case Dropped => if |files| == 0 then current else files
  }

  /**
    A file the picker refused never reaches the submit: it is not reported there, and
    the submit behaves as if no file was chosen (an edit keeps the current image, an add
    asks for one). Only dropped files can make the submit report a bad image, and an
    empty drop leaves the submit seeing what the input held before.
  */
  lemma {:induction false} SelectThenSubmit(c: seq<Product>, editId: Option<int>, fields: FormFields, current: seq<UploadFile>, files: seq<UploadFile>, source: FileSource)
    ensures var r := SubmitForm(c, editId, fields, InputAfterSelect(current, files, source));
      && (source == Picker ==> r != Err(NotAnImage) && r != Err(FileTooLarge))
      && (source == Picker && |files| > 0 && !Acceptable(files[0]) ==> r == SubmitForm(c, editId, fields, []))
      && (source == Dropped && |files| > 0 ==> r == SubmitForm(c, editId, fields, files))
      && (source == Dropped && |files| == 0 ==> r == SubmitForm(c, editId, fields, current))
  {
  }

  /**
    `handleFormSubmit`: picks the image (the first file in the input, else the edited
    product's current image, else an error when adding) and then updates or adds.
    `files` is the input's content at submit time, after `InputAfterSelect`.
  */
  function SubmitForm(c: seq<Product>, editId: Option<int>, fields: FormFields, files: seq<UploadFile>): (r: Result<seq<Product>, FormError>)
    ensures r.Err? <==> (|files| > 0 && !Acceptable(files[0])) || (|files| == 0 && !Editing(editId))
    ensures |files| > 0 && !("image/" <= files[0].mimeType) ==> r == Err(NotAnImage)
    ensures |files| > 0 && "image/" <= files[0].mimeType && files[0].size > MaxImageSize ==> r == Err(FileTooLarge)
    ensures |files| == 0 && !Editing(editId) ==> r == Err(ImageRequired)
    ensures r.Ok? && !Editing(editId) ==> r.value == AddProduct(c, WithImage(fields, files[0].dataUrl))
    ensures r.Ok? && Editing(editId) && |files| > 0 ==> r.value == UpdateProduct(c, editId.value, WithImage(fields, files[0].dataUrl))
    ensures r.Ok? && Editing(editId) && |files| == 0 ==>
      && Ids(r.value) == Ids(c)
      && (forall k :: Seqs.IsFirst(Ids(c), editId.value, k) ==>
            r.value == UpdateProduct(c, editId.value, WithImage(fields, c[k].image))
            && r.value == c[k := FromDraft(editId.value, WithImage(fields, c[k].image))])
      && (editId.value !in Ids(c) ==> r.value == c)
  {
    if |files| > 0 then
      var file := files[0];
      if !("image/" <= file.mimeType) then Err(NotAnImage)
      else if file.size > MaxImageSize then Err(FileTooLarge)
      else if Editing(editId) then Ok(UpdateProduct(c, editId.value, WithImage(fields, file.dataUrl)))
      else Ok(AddProduct(c, WithImage(fields, file.dataUrl)))
    else if Editing(editId) then
      var k := Seqs.FirstIndex(Ids(c), editId.value);
      var image := if k == -1 then "" else c[k].image;
      Ok(UpdateProduct(c, editId.value, WithImage(fields, image)))
    else
      Err(ImageRequired)
  }
}
