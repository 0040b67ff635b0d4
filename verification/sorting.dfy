/**
  `Array.prototype.sort` with the comparators the admin table and the storefront
  use. The engine's sort is stable, so it is modelled as a stable insertion sort:
  an element is placed after every element it does not sort before.
*/
module Sorting {
  import opened Products
  import Text
  import Seqs

  /** The comparators in use: `a.id - b.id`, `a.price - b.price`, `b.price - a.price`, `a.name.localeCompare(b.name)`. */
  datatype Order = IdAsc | PriceAsc | PriceDesc | NameAsc

  /**
    The comparator functions themselves, as numbers: negative when `a` sorts first.
    `localeCompare` is stood in for by the name order, giving -1, 0 or 1.
  */
  function Compare(o: Order, a: Product, b: Product): int
  {
    match o
    case IdAsc => a.id - b.id
    case PriceAsc => a.price - b.price
    case PriceDesc => b.price - a.price
    case NameAsc =>
      if Text.NameLe(a.name, b.name) && Text.NameLe(b.name, a.name) then 0
      else if Text.NameLe(a.name, b.name) then -1
      else 1
  }

  /** `a` may sort before `b`: the comparator returns zero or less. */
  predicate Le(o: Order, a: Product, b: Product)
  {
    match o
    case IdAsc => a.id <= b.id
    case PriceAsc => a.price <= b.price
    case PriceDesc => b.price <= a.price
    case NameAsc => Text.NameLe(a.name, b.name)
  }

  /** `Le` is exactly "the comparator returns zero or less", for every comparator. */
  lemma {:induction false} LeIsComparator(o: Order, a: Product, b: Product)
    ensures Le(o, a, b) <==> Compare(o, a, b) <= 0
  {
  }

  lemma {:induction false} LeTotal(o: Order, a: Product, b: Product)
    ensures Le(o, a, b) || Le(o, b, a)
  {
    if o.NameAsc? {
      Text.NameLeTotal(a.name, b.name);
    }
  }

  lemma {:induction false} LeTransitive(o: Order, a: Product, b: Product, c: Product)
    requires Le(o, a, b) && Le(o, b, c)
    ensures Le(o, a, c)
  {
    if o.NameAsc? {
      Text.NameLeTransitive(a.name, b.name, c.name);
    }
  }

  /** Every neighbour pair is in order. */
  predicate Sorted(o: Order, s: seq<Product>)
  {
    forall i :: 0 < i < |s| ==> Le(o, s[i - 1], s[i])
  }

  /** Every pair, not just neighbours, is in order. */
  predicate SortedPairwise(o: Order, s: seq<Product>)
  {
    forall i, j :: 0 <= i < j < |s| ==> Le(o, s[i], s[j])
  }

  /** Prepending an element that sorts no later than the head keeps a list sorted. */
  lemma {:induction false} SortedCons(o: Order, x: Product, s: seq<Product>)
    requires Sorted(o, s)
    requires |s| > 0 ==> Le(o, x, s[0])
    ensures Sorted(o, [x] + s)
  {
    var r := [x] + s;
    forall i | 0 < i < |r| ensures Le(o, r[i - 1], r[i]) {
      if i > 1 {
        assert r[i - 1] == s[i - 2] && r[i] == s[i - 1];
      }
    }
  }

  lemma {:induction false} SortedTail(o: Order, s: seq<Product>)
    requires Sorted(o, s) && |s| > 0
    ensures Sorted(o, s[1..])
  {
    forall i | 0 < i < |s[1..]| ensures Le(o, s[1..][i - 1], s[1..][i]) {
      assert s[1..][i - 1] == s[i] && s[1..][i] == s[i + 1];
    }
  }

  /** Places `x` after the leading run of elements that do not sort after it. */
  function Insert(o: Order, x: Product, s: seq<Product>): (r: seq<Product>)
    requires Sorted(o, s)
    ensures Sorted(o, r)
    ensures multiset(r) == multiset(s) + multiset{x}
    ensures r[0] == x || (|s| > 0 && r[0] == s[0])
  {
    if |s| == 0 then [x]
    else if Le(o, s[0], x) then
      SortedTail(o, s);
      var rest := Insert(o, x, s[1..]);
      assert s == [s[0]] + s[1..];
      SortedCons(o, s[0], rest);
      [s[0]] + rest
    else
      LeTotal(o, s[0], x);
      SortedCons(o, x, s);
      [x] + s
  }

  /** The stable sort of `s` under the comparator `o`. */
  function Sort(o: Order, s: seq<Product>): (r: seq<Product>)
    ensures Sorted(o, r)
    ensures multiset(r) == multiset(s)
  {
    if |s| == 0 then []
    else
      assert s == s[..|s| - 1] + [s[|s| - 1]];
      Insert(o, s[|s| - 1], Sort(o, s[..|s| - 1]))
  }

  /** Sortedness of neighbours extends to every pair, since each comparator is transitive. */
  lemma {:induction false} SortedIsPairwise(o: Order, s: seq<Product>)
    requires Sorted(o, s)
    ensures SortedPairwise(o, s)
  {
    forall i, j | 0 <= i < j < |s| ensures Le(o, s[i], s[j]) {
      SortedChain(o, s, i, j);
    }
  }

  lemma {:induction false} SortedChain(o: Order, s: seq<Product>, i: int, j: int)
    requires Sorted(o, s) && 0 <= i < j < |s|
    ensures Le(o, s[i], s[j])
    decreases j - i
  {
    if j > i + 1 {
      SortedChain(o, s, i, j - 1);
      LeTransitive(o, s[i], s[j - 1], s[j]);
    }
  }

  /** A sorted permutation of `s`: the shape every sort result in this model is stated with. */
  lemma {:induction false} SortIsSortedPermutation(o: Order, s: seq<Product>)
    ensures multiset(Sort(o, s)) == multiset(s)
    ensures SortedPairwise(o, Sort(o, s))
    ensures |Sort(o, s)| == |s|
  {
    SortedIsPairwise(o, Sort(o, s));
    assert |multiset(Sort(o, s))| == |multiset(s)|;
  }

  /** `a` and `b` compare equal: the comparator returns 0 both ways. */
  predicate Tied(o: Order, a: Product, b: Product)
  {
    Le(o, a, b) && Le(o, b, a)
  }

  function TiedWith(o: Order, z: Product): Product -> bool
  {
    (y: Product) => Tied(o, z, y)
  }

  /** No element of a list that starts after `x` is tied with `x`. */
  lemma {:induction false} NoneTiedAfter(o: Order, x: Product, t: seq<Product>, z: Product)
    requires Sorted(o, t) && |t| > 0 && !Le(o, t[0], x) && Tied(o, z, x)
    ensures Seqs.Filter(t, TiedWith(o, z)) == []
  {
    SortedIsPairwise(o, t);
    var r := Seqs.Filter(t, TiedWith(o, z));
    Seqs.FilterSpec(t, TiedWith(o, z));
    if |r| > 0 {
      assert r[0] in multiset(t);
      var j :| 0 <= j < |t| && t[j] == r[0];
      assert Tied(o, z, t[j]);
      LeTransitive(o, t[j], z, x);
      if j > 0 {
        LeTransitive(o, t[0], t[j], x);
      }
    }
  }

  /** `x` inserted in front of `t`: nothing in `t` is tied with it, or it is not in the class. */
  lemma {:induction false} InsertFilterFront(o: Order, x: Product, t: seq<Product>, z: Product)
    requires Sorted(o, t) && |t| > 0 && !Le(o, t[0], x)
    ensures Seqs.Filter(Insert(o, x, t), TiedWith(o, z))
         == Seqs.Filter(t, TiedWith(o, z)) + (if Tied(o, z, x) then [x] else [])
  {
    var e := TiedWith(o, z);
    Seqs.FilterSingleton(x, e);
    assert Insert(o, x, t) == [x] + t;
    Seqs.FilterConcat([x], t, e);
    if Tied(o, z, x) {
      NoneTiedAfter(o, x, t, z);
      assert Seqs.Filter(Insert(o, x, t), e) == [x] + [];
    } else {
      assert Seqs.Filter(Insert(o, x, t), e) == [] + Seqs.Filter(t, e);
    }
  }

  /** `x` inserted past the head `h`: the head's contribution comes first on both sides. */
  lemma {:induction false} InsertFilterPast(o: Order, x: Product, h: Product, u: seq<Product>, z: Product, tail: seq<Product>)
    requires Sorted(o, [h] + u) && Sorted(o, u) && Le(o, h, x)
    requires Seqs.Filter(Insert(o, x, u), TiedWith(o, z)) == Seqs.Filter(u, TiedWith(o, z)) + tail
    ensures Seqs.Filter(Insert(o, x, [h] + u), TiedWith(o, z)) == Seqs.Filter([h] + u, TiedWith(o, z)) + tail
  {
    var t := [h] + u;
    assert t[0] == h && t[1..] == u;
    assert Insert(o, x, t) == [h] + Insert(o, x, u);
    Seqs.FilterPrepend(h, Insert(o, x, u), u, tail, TiedWith(o, z));
  }

  /** Inserting `x` appends it to its tie class and leaves every other tie class as it was. */
  lemma {:induction false} InsertFilter(o: Order, x: Product, t: seq<Product>, z: Product)
    requires Sorted(o, t)
    ensures Seqs.Filter(Insert(o, x, t), TiedWith(o, z))
         == Seqs.Filter(t, TiedWith(o, z)) + (if Tied(o, z, x) then [x] else [])
    decreases |t|
  {
    if |t| == 0 {
      Seqs.FilterSingleton(x, TiedWith(o, z));
      assert Insert(o, x, t) == [x];
    } else if Le(o, t[0], x) {
      SortedTail(o, t);
      InsertFilter(o, x, t[1..], z);
      assert t == [t[0]] + t[1..];
      InsertFilterPast(o, x, t[0], t[1..], z, if Tied(o, z, x) then [x] else []);
    } else {
      InsertFilterFront(o, x, t, z);
    }
  }

  /** One step of the sort: if sorting `init` kept the tie class of `z`, so does inserting one more element. */
  lemma {:induction false} StableStep(o: Order, init: seq<Product>, last: Product, z: Product)
    requires Seqs.Filter(Sort(o, init), TiedWith(o, z)) == Seqs.Filter(init, TiedWith(o, z))
    ensures Seqs.Filter(Insert(o, last, Sort(o, init)), TiedWith(o, z)) == Seqs.Filter(init + [last], TiedWith(o, z))
  {
    InsertFilter(o, last, Sort(o, init), z);
    Seqs.FilterSnoc(init, last, TiedWith(o, z));
  }

  /** The sort places the last element into the sorted rest. */
  lemma {:induction false} SortLast(o: Order, s: seq<Product>)
    requires |s| > 0
    ensures Sort(o, s) == Insert(o, s[|s| - 1], Sort(o, s[..|s| - 1]))
  {
  }

  /** The sort is stable: tied products keep their relative order from the input. */
  lemma {:induction false} SortIsStable(o: Order, s: seq<Product>, z: Product)
    ensures Seqs.Filter(Sort(o, s), TiedWith(o, z)) == Seqs.Filter(s, TiedWith(o, z))
    decreases |s|
  {
    if |s| > 0 {
      var init, last := s[..|s| - 1], s[|s| - 1];
      SortIsStable(o, init, z);
      StableStep(o, init, last, z);
      SortLast(o, s);
      Seqs.SplitLast(s);
    }
  }

  /** Sorting three products by price when the last one is priced between the first two. */
  lemma {:induction false} SortThreeByPrice(p1: Product, p2: Product, p3: Product)
    requires p1.price <= p3.price < p2.price
    ensures Sort(PriceAsc, [p1, p2, p3]) == [p1, p3, p2]
  {
    var o := PriceAsc;
    assert [p1, p2][..1] == [p1];
    assert Sort(o, [p1]) == [p1];
    assert Insert(o, p2, [p1]) == [p1, p2];
    assert Sort(o, [p1, p2]) == [p1, p2];
    assert [p1, p2, p3][..2] == [p1, p2];
    assert [p1, p2][1..] == [p2];
    assert Insert(o, p3, [p2]) == [p3, p2];
    assert Insert(o, p3, [p1, p2]) == [p1, p3, p2];
  }
}
