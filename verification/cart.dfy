/**
  The storefront shopping cart (`Cart` in main.js): a list of line items, each a
  copy of a product taken when it was added plus a quantity. Saving to storage
  and re-rendering after each change are left to the caller.
*/
module Cart {
  import opened Products
  import Seqs

  /** `{ ...product, quantity }`. */
  datatype Item = Item(product: Product, quantity: int)

  function ItemId(i: Item): int
  {
    i.product.id
  }

  function ItemIds(items: seq<Item>): (r: seq<int>)
    ensures |r| == |items|
    ensures forall i :: 0 <= i < |items| ==> r[i] == items[i].product.id
  {
    Seqs.Map(items, ItemId)
  }

  /** The cart invariant: one line per product id, and every quantity at least 1. */
  predicate Valid(items: seq<Item>)
  {
    Seqs.Distinct(ItemIds(items)) && forall i :: 0 <= i < |items| ==> items[i].quantity >= 1
  }

  /** `addItem`: one more of a product already in the cart, otherwise a new line with quantity 1. */
  function AddItem(items: seq<Item>, p: Product): (r: seq<Item>)
    ensures p.id in ItemIds(items) ==>
      forall k :: Seqs.IsFirst(ItemIds(items), p.id, k) ==>
        r == items[k := Item(items[k].product, items[k].quantity + 1)]
    ensures p.id !in ItemIds(items) ==> r == items + [Item(p, 1)]
    ensures ItemIds(r) == if p.id in ItemIds(items) then ItemIds(items) else ItemIds(items) + [p.id]
    ensures Valid(items) ==> Valid(r)
  {
    var k := Seqs.FirstIndex(ItemIds(items), p.id);
    if k == -1 then
      var r := items + [Item(p, 1)];
      assert ItemIds(r) == ItemIds(items) + [p.id];
      r
    else
      var r := items[k := Item(items[k].product, items[k].quantity + 1)];
      assert ItemIds(r) == ItemIds(items);
      r
  }

  /** `Math.max(1, qty)`. */
  function AtLeastOne(qty: int): (q: int)
    ensures q >= 1
    ensures qty >= 1 ==> q == qty
    ensures qty < 1 ==> q == 1
  {
    if qty > 1 then qty else 1
  }

  /** `update`: sets the quantity of the first line with that id, raised to at least 1. */
  function Update(items: seq<Item>, id: int, qty: int): (r: seq<Item>)
    ensures id !in ItemIds(items) ==> r == items
    ensures forall k :: Seqs.IsFirst(ItemIds(items), id, k) ==>
      r == items[k := Item(items[k].product, AtLeastOne(qty))]
    ensures ItemIds(r) == ItemIds(items)
    ensures Valid(items) ==> Valid(r)
  {
    var k := Seqs.FirstIndex(ItemIds(items), id);
    if k == -1 then items
    else
      var r := items[k := Item(items[k].product, AtLeastOne(qty))];
      assert ItemIds(r) == ItemIds(items);
      r
  }

  /** The test `remove` keeps a line by. */
  function DifferentId(id: int): Item -> bool
  {
    (i: Item) => i.product.id != id
  }

  /** `remove`: keeps exactly the lines whose id differs, in their order. */
  function Remove(items: seq<Item>, id: int): (r: seq<Item>)
    ensures Seqs.IsSubsequence(r, items)
    ensures forall x :: multiset(r)[x] == if x.product.id != id then multiset(items)[x] else 0
    ensures id !in ItemIds(r)
    ensures Valid(items) ==> Valid(r)
  {
    var r := Seqs.Filter(items, DifferentId(id));
    Seqs.FilterSpec(items, DifferentId(id));
    assert Valid(items) ==> Valid(r) by {
      if Valid(items) {
        Seqs.MapSubsequence(r, items, ItemId);
        Seqs.SubsequenceDistinct(ItemIds(r), ItemIds(items));
        Seqs.SubsequenceMembers(r, items);
      }
    }
    r
  }

  /** `clear`: an empty cart, which is valid and totals 0. */
  function Clear(): (r: seq<Item>)
    ensures |r| == 0 && Valid(r) && Total(r) == 0
  {
    []
  }

  function LineTotal(i: Item): int
  {
    i.product.price * i.quantity
  }

  /** Every line has a non-negative price and quantity. */
  predicate NonNegativeLines(items: seq<Item>)
  {
    forall i :: 0 <= i < |items| ==> items[i].product.price >= 0 && items[i].quantity >= 0
  }

  /**
    The sum of price times quantity, accumulated from the first line on as `reduce` does:
    the running sum of all lines but the last, plus the last. An empty cart totals 0, and
    with non-negative prices and quantities the total is never negative.
  */
  function Total(items: seq<Item>): (r: int)
    ensures |items| == 0 ==> r == 0
    ensures NonNegativeLines(items) ==> r >= 0
  {
    if |items| == 0 then 0
    else
      var init := items[..|items| - 1];
      assert forall i :: 0 <= i < |init| ==> init[i] == items[i];
      Total(init) + LineTotal(items[|items| - 1])
  }

  /** Summed from the front instead, the total is the first line plus the total of the rest. */
  lemma {:induction false} TotalFromFront(items: seq<Item>)
    requires |items| > 0
    ensures Total(items) == LineTotal(items[0]) + Total(items[1..])
  {
    assert items == [items[0]] + items[1..];
    TotalAppend([items[0]], items[1..]);
    assert [items[0]][..0] == [];
  }

  /** `total`: the `reduce` loop, one line at a time. */
  method ComputeTotal(items: seq<Item>) returns (s: int)
    ensures s == Total(items)
  {
    s := 0;
    var i := 0;
    while i < |items|
      invariant 0 <= i <= |items|
      invariant s == Total(items[..i])
    {
      assert items[..i + 1][..i] == items[..i];
      s := s + items[i].product.price * items[i].quantity;
      i := i + 1;
    }
    assert items[..i] == items;
  }

  /** The total is additive over concatenation of line lists. */
  lemma {:induction false} TotalAppend(a: seq<Item>, b: seq<Item>)
    ensures Total(a + b) == Total(a) + Total(b)
    decreases |b|
  {
    if |b| > 0 {
      var b' := b[..|b| - 1];
      assert (a + b)[..|a + b| - 1] == a + b';
      TotalAppend(a, b');
    } else {
      assert a + b == a;
    }
  }

  /** Replacing one line changes the total by the difference of the two line totals. */
  lemma {:induction false} TotalReplace(items: seq<Item>, k: int, x: Item)
    requires 0 <= k < |items|
    ensures Total(items[k := x]) == Total(items) - LineTotal(items[k]) + LineTotal(x)
  {
    var pre, post := items[..k], items[k + 1..];
    assert items == pre + [items[k]] + post;
    assert items[k := x] == pre + [x] + post;
    TotalAppend(pre + [items[k]], post);
    TotalAppend(pre, [items[k]]);
    TotalAppend(pre + [x], post);
    TotalAppend(pre, [x]);
    assert Total([x]) == LineTotal(x) by {
      assert [x][..0] == [];
    }
    assert Total([items[k]]) == LineTotal(items[k]) by {
      assert [items[k]][..0] == [];
    }
  }

  /**
    Adding a product raises the total by one unit price: the product's own price for a
    new line, or the price frozen in the existing line.
  */
  lemma {:induction false} AddItemTotal(items: seq<Item>, p: Product)
    ensures p.id !in ItemIds(items) ==> Total(AddItem(items, p)) == Total(items) + p.price
    ensures forall k :: Seqs.IsFirst(ItemIds(items), p.id, k) ==>
      Total(AddItem(items, p)) == Total(items) + items[k].product.price
  {
    var k := Seqs.FirstIndex(ItemIds(items), p.id);
    if k == -1 {
      AddNewLineTotal(items, p);
    } else {
      AddExistingLineTotal(items, p, k);
      forall k' | Seqs.IsFirst(ItemIds(items), p.id, k')
        ensures Total(AddItem(items, p)) == Total(items) + items[k'].product.price
      {
        assert k' == k;
      }
    }
  }

  lemma {:induction false} AddNewLineTotal(items: seq<Item>, p: Product)
    requires p.id !in ItemIds(items)
    ensures Total(AddItem(items, p)) == Total(items) + p.price
  {
    assert AddItem(items, p) == items + [Item(p, 1)];
    TotalAppend(items, [Item(p, 1)]);
    assert [Item(p, 1)][..0] == [];
  }

  lemma {:induction false} AddExistingLineTotal(items: seq<Item>, p: Product, k: int)
    requires Seqs.IsFirst(ItemIds(items), p.id, k)
    ensures Total(AddItem(items, p)) == Total(items) + items[k].product.price
  {
    AddExistingLine(items, p, k);
    IncrementTotal(items, k);
  }

  lemma {:induction false} AddExistingLine(items: seq<Item>, p: Product, k: int)
    requires Seqs.IsFirst(ItemIds(items), p.id, k)
    ensures AddItem(items, p) == items[k := Item(items[k].product, items[k].quantity + 1)]
  {
  }

  /** One more of line `k` adds that line's price to the total. */
  lemma {:induction false} IncrementTotal(items: seq<Item>, k: int)
    requires 0 <= k < |items|
    ensures Total(items[k := Item(items[k].product, items[k].quantity + 1)]) == Total(items) + items[k].product.price
  {
    var x := Item(items[k].product, items[k].quantity + 1);
    TotalReplace(items, k, x);
    assert LineTotal(x) == LineTotal(items[k]) + items[k].product.price;
  }

  /** Adding the same new product twice gives one line with quantity 2, worth twice its price. */
  lemma {:induction false} AddTwice(items: seq<Item>, p: Product)
    requires p.id !in ItemIds(items)
    ensures AddItem(AddItem(items, p), p) == items + [Item(p, 2)]
    ensures Total(AddItem(AddItem(items, p), p)) == Total(items) + 2 * p.price
  {
    var once := AddItem(items, p);
    assert Seqs.IsFirst(ItemIds(once), p.id, |items|);
    AddItemTotal(items, p);
    AddItemTotal(once, p);
  }

  /** Setting a quantity changes the total by the price times the change in quantity. */
  lemma {:induction false} UpdateTotal(items: seq<Item>, id: int, qty: int, k: int)
    requires Seqs.IsFirst(ItemIds(items), id, k)
    ensures Total(Update(items, id, qty)) == Total(items) + items[k].product.price * (AtLeastOne(qty) - items[k].quantity)
  {
    TotalReplace(items, k, Item(items[k].product, AtLeastOne(qty)));
  }

  /** Dropping one line lowers the total by that line's total. */
  lemma {:induction false} TotalRemoveAt(items: seq<Item>, k: int)
    requires 0 <= k < |items|
    ensures Total(items[..k] + items[k + 1..]) == Total(items) - LineTotal(items[k])
  {
    var pre, post := items[..k], items[k + 1..];
    assert items == (pre + [items[k]]) + post;
    TotalAppend(pre, [items[k]]);
    TotalAppend(pre + [items[k]], post);
    TotalAppend(pre, post);
    assert Total([items[k]]) == LineTotal(items[k]) by {
      assert [items[k]][..0] == [];
    }
  }

  /** In a valid cart, removing an id present in it drops exactly that one line, and its line total. */
  lemma {:induction false} RemoveFromValid(items: seq<Item>, id: int, k: int)
    requires Valid(items) && Seqs.IsFirst(ItemIds(items), id, k)
    ensures Remove(items, id) == items[..k] + items[k + 1..]
    ensures Total(Remove(items, id)) == Total(items) - LineTotal(items[k])
  {
    var keep := DifferentId(id);
    var pre, post := items[..k], items[k + 1..];
    assert items == pre + ([items[k]] + post);
    assert Seqs.Filter(pre, keep) == pre by {
      forall i | 0 <= i < |pre| ensures keep(pre[i]) {
        assert ItemIds(items)[i] == pre[i].product.id;
      }
      Seqs.FilterKeepsAll(pre, keep);
    }
    assert Seqs.Filter(post, keep) == post by {
      forall i | 0 <= i < |post| ensures keep(post[i]) {
        assert ItemIds(items)[k + 1 + i] == post[i].product.id;
      }
      Seqs.FilterKeepsAll(post, keep);
    }
    Seqs.FilterSingleton(items[k], keep);
    Seqs.FilterConcat([items[k]], post, keep);
    Seqs.FilterConcat(pre, [items[k]] + post, keep);
    assert Remove(items, id) == Seqs.Filter(items, keep);
    TotalRemoveAt(items, k);
  }
}
