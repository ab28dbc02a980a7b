/** The checklist catalog: a fixed, ordered list of weighted categories of
    yes/no items (the `metrics` constant of src/App.js). Only an item's id and
    its category's weight take part in scoring; the display strings of the
    items are not carried. */
module Catalog {

  /** One checklist item, identified by its id in the answer map. */
  datatype Item = Item(id: int)

  /** A category: every checked item in it is worth `weight` points. */
  datatype Category = Category(name: string, weight: real, items: seq<Item>)

  /** The shipped catalog, in display order. */
  const Metrics: seq<Category> := [
    Category("Core Metrics", 2.0, [Item(1), Item(2), Item(3), Item(4)]),
    Category("Market & Competition", 1.5, [Item(5), Item(6), Item(7)]),
    Category("Customer & Sales", 1.5, [Item(8), Item(9), Item(10)]),
    Category("Team & Technology", 1.0, [Item(11), Item(12), Item(13)]),
    Category("Business Fundamentals", 1.0, [Item(14), Item(15)])
  ]

  /** The ids of a category's items, in order. */
  function ItemIds(items: seq<Item>): (r: seq<int>)
    ensures |r| == |items|
    ensures forall k :: 0 <= k < |items| ==> r[k] == items[k].id
  {
    if |items| == 0 then [] else ItemIds(items[..|items| - 1]) + [items[|items| - 1].id]
  }

  /** The ids of every item of the catalog, category after category. */
  function Ids(cats: seq<Category>): seq<int> {
    if |cats| == 0 then [] else Ids(cats[..|cats| - 1]) + ItemIds(cats[|cats| - 1].items)
  }

  /** Every item's id is among the catalog's ids. */
  lemma {:induction false} IdsHasItem(cats: seq<Category>, i: int, j: int)
    requires 0 <= i < |cats| && 0 <= j < |cats[i].items|
    ensures cats[i].items[j].id in Ids(cats)
  {
    var n := |cats|;
    if i < n - 1 {
      assert cats[..n - 1][i] == cats[i];
      IdsHasItem(cats[..n - 1], i, j);
    } else {
      assert ItemIds(cats[i].items)[j] == cats[i].items[j].id;
    }
  }

  /** No value occurs twice in `s`. */
  predicate Distinct(s: seq<int>) {
    forall i, j :: 0 <= i < j < |s| ==> s[i] != s[j]
  }

  /** No two items of the catalog share an id. */
  predicate DistinctIds(cats: seq<Category>) {
    Distinct(Ids(cats))
  }

  /** Every category weighs at least zero points. */
  predicate NonNegativeWeights(cats: seq<Category>) {
    forall c :: c in cats ==> c.weight >= 0.0
  }

  /** The sum over categories of weight times number of items: a reference
      value for the maximum score. */
  function WeightedCount(cats: seq<Category>): real {
    if |cats| == 0 then 0.0
    else WeightedCount(cats[..|cats| - 1]) + cats[|cats| - 1].weight * (|cats[|cats| - 1].items| as real)
  }

  /** Splitting a duplicate-free sequence gives two duplicate-free, disjoint parts. */
  lemma DistinctSplit(a: seq<int>, b: seq<int>)
    requires Distinct(a + b)
    ensures Distinct(a) && Distinct(b)
    ensures forall x :: x in a ==> x !in b
  {
    forall i, j | 0 <= i < j < |a| ensures a[i] != a[j] {
      assert (a + b)[i] == a[i] && (a + b)[j] == a[j];
    }
    forall i, j | 0 <= i < j < |b| ensures b[i] != b[j] {
      assert (a + b)[|a| + i] == b[i] && (a + b)[|a| + j] == b[j];
    }
    forall i, j | 0 <= i < |a| && 0 <= j < |b| ensures a[i] != b[j] {
      assert (a + b)[i] == a[i] && (a + b)[|a| + j] == b[j];
    }
  }

  /** With distinct ids, an id pins down a single item position: every item
      belongs to exactly one category, and to one place in it. */
  lemma {:induction false} ItemOwnerUnique(cats: seq<Category>, i1: int, j1: int, i2: int, j2: int)
    requires DistinctIds(cats)
    requires 0 <= i1 < |cats| && 0 <= j1 < |cats[i1].items|
    requires 0 <= i2 < |cats| && 0 <= j2 < |cats[i2].items|
    requires cats[i1].items[j1].id == cats[i2].items[j2].id
    ensures i1 == i2 && j1 == j2
  {
    var n := |cats|;
    var init, last := cats[..n - 1], cats[n - 1];
    var a, b := Ids(init), ItemIds(last.items);
    assert Ids(cats) == a + b;
    DistinctSplit(a, b);
    if i1 < n - 1 && i2 < n - 1 {
      assert init[i1] == cats[i1] && init[i2] == cats[i2];
      ItemOwnerUnique(init, i1, j1, i2, j2);
    } else if i1 == n - 1 && i2 == n - 1 {
      assert b[j1] == b[j2];
    } else if i1 < n - 1 {
      assert init[i1] == cats[i1];
      IdsHasItem(init, i1, j1);
      assert false;
    } else {
      assert init[i2] == cats[i2];
      IdsHasItem(init, i2, j2);
      assert false;
    }
  }

  /** The shipped catalog lists the ids 1 to 15, in order. */
  lemma MetricsIds()
    ensures Ids(Metrics) == [1, 2, 3, 4, 5, 6, 7, 8, 9, 10, 11, 12, 13, 14, 15]
  {
    IdsStep(Metrics, 0);
    assert ItemIds(Metrics[0].items) == [1, 2, 3, 4];
    IdsStep(Metrics, 1);
    assert ItemIds(Metrics[1].items) == [5, 6, 7];
    IdsStep(Metrics, 2);
    assert ItemIds(Metrics[2].items) == [8, 9, 10];
    IdsStep(Metrics, 3);
    assert ItemIds(Metrics[3].items) == [11, 12, 13];
    IdsStep(Metrics, 4);
    assert ItemIds(Metrics[4].items) == [14, 15];
    assert Metrics[..5] == Metrics;
  }

  /** The ids of a one-category-longer prefix. */
  lemma IdsStep(cats: seq<Category>, k: int)
    requires 0 <= k < |cats|
    ensures Ids(cats[..k + 1]) == Ids(cats[..k]) + ItemIds(cats[k].items)
  {
    assert cats[..k + 1][..k] == cats[..k];
  }

  /** The shipped catalog is well formed: distinct ids, positive weights, and
      22 points in all. */
  lemma MetricsWellFormed()
    ensures DistinctIds(Metrics)
    ensures forall c :: c in Metrics ==> c.weight > 0.0
    ensures WeightedCount(Metrics) == 22.0
  {
    MetricsIds();
    var s := Ids(Metrics);
    forall i, j | 0 <= i < j < |s| ensures s[i] != s[j] {
      assert s[i] == i + 1 && s[j] == j + 1;
    }
    forall k | 0 <= k < 5 ensures Metrics[..k + 1][..k] == Metrics[..k] { }
    assert WeightedCount(Metrics[..1]) == 8.0;
    assert WeightedCount(Metrics[..2]) == 12.5;
    assert WeightedCount(Metrics[..3]) == 17.0;
    assert WeightedCount(Metrics[..4]) == 20.0;
    assert Metrics[..5] == Metrics;
  }
}
