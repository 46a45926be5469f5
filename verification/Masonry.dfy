/** The two-column layout: each item goes under the shorter column. */
module Masonry {

  /** The items of the two columns, top to bottom. */
  datatype Columns = Columns(left: seq<nat>, right: seq<nat>)
  {
    function Add(item: nat, toLeft: bool): Columns {
      if toLeft then this.(left := left + [item]) else this.(right := right + [item])
    }
  }

  /** The heights of all items, and the gutter that comes with each. */
  datatype Sizes = Sizes(heights: seq<real>, gutter: real)
  {
    function Slot(item: nat): real {
      if item < |heights| then heights[item] + gutter else 0.0
    }
  }

  /** What a column takes up. */
  function Height(sizes: Sizes, items: seq<nat>): real {
    if items == [] then 0.0 else sizes.Slot(items[0]) + Height(sizes, items[1..])
  }

  predicate GoesLeft(sizes: Sizes, c: Columns) {
    Height(sizes, c.left) <= Height(sizes, c.right)
  }

  /** Where the first `n` items belong: each under the column that is no taller, given the
      items before it; a tie goes left. */
  function Placed(sizes: Sizes, n: nat): Columns {
    if n == 0 then Columns([], [])
    else
      var c := Placed(sizes, n - 1);
      c.Add(n - 1, GoesLeft(sizes, c))
  }

  lemma {:induction false} HeightOfMore(sizes: Sizes, items: seq<nat>, item: nat)
    ensures Height(sizes, items + [item]) == Height(sizes, items) + sizes.Slot(item)
  {
    if items != [] {
      HeightOfMore(sizes, items[1..], item);
      assert (items + [item])[1..] == items[1..] + [item];
    }
  }

  /** The next item goes under the column that is no taller, and makes it taller by its slot;
      the other column stays. */
  lemma PlacedNext(sizes: Sizes, n: nat)
    ensures var c, c' := Placed(sizes, n), Placed(sizes, n + 1);
      if Height(sizes, c.left) <= Height(sizes, c.right) then
        && c'.left == c.left + [n] && c'.right == c.right
        && Height(sizes, c'.left) == Height(sizes, c.left) + sizes.Slot(n)
      else
        && c'.left == c.left && c'.right == c.right + [n]
        && Height(sizes, c'.right) == Height(sizes, c.right) + sizes.Slot(n)
  {
    HeightOfMore(sizes, Placed(sizes, n).left, n);
    HeightOfMore(sizes, Placed(sizes, n).right, n);
  }

  // Where items go

  predicate Increasing(items: seq<nat>) {
    forall i, j :: 0 <= i < j < |items| ==> items[i] < items[j]
  }

  predicate Below(items: seq<nat>, n: nat) {
    forall k :: 0 <= k < |items| ==> items[k] < n
  }

  /** The columns keep the order of the items, of which there are `n`. */
  predicate Ordered(c: Columns, n: nat) {
    Increasing(c.left) && Increasing(c.right) && Below(c.left, n) && Below(c.right, n)
  }

  /** The two columns hold the first `n` items between them, each in its original order. */
  ghost predicate Partition(c: Columns, n: nat) {
    Ordered(c, n) && forall i: nat :: i < n ==> (i in c.left) != (i in c.right)
  }

  lemma AddedIsOrdered(c: Columns, n: nat, c': Columns)
    requires Ordered(c, n)
    requires (c'.left == c.left + [n] && c'.right == c.right) || (c'.left == c.left && c'.right == c.right + [n])
    ensures Ordered(c', n + 1)
  {
  }

  lemma {:induction false} PlacedIsOrdered(sizes: Sizes, n: nat)
    ensures Ordered(Placed(sizes, n), n)
  {
    if n > 0 {
      PlacedIsOrdered(sizes, n - 1);
      PlacedNext(sizes, n - 1);
      AddedIsOrdered(Placed(sizes, n - 1), n - 1, Placed(sizes, n));
    }
  }

  lemma {:induction false} PlacedOnce(sizes: Sizes, n: nat, i: nat)
    requires i < n
    ensures (i in Placed(sizes, n).left) != (i in Placed(sizes, n).right)
  {
    var c := Placed(sizes, n - 1);
    PlacedNext(sizes, n - 1);
    PlacedIsOrdered(sizes, n - 1);
    if i < n - 1 {
      PlacedOnce(sizes, n - 1, i);
    } else {
      assert i !in c.left && i !in c.right;
    }
  }

  lemma PlacedIsPartition(sizes: Sizes, n: nat)
    ensures Partition(Placed(sizes, n), n)
  {
    PlacedIsOrdered(sizes, n);
    forall i: nat | i < n ensures (i in Placed(sizes, n).left) != (i in Placed(sizes, n).right) {
      PlacedOnce(sizes, n, i);
    }
  }

  /** An item stays where it was placed: the columns of fewer items are their beginnings. */
  lemma {:induction false} PlacedStays(sizes: Sizes, m: nat, n: nat)
    requires m <= n
    ensures Placed(sizes, m).left <= Placed(sizes, n).left && Placed(sizes, m).right <= Placed(sizes, n).right
    decreases n
  {
    if m < n {
      PlacedStays(sizes, m, n - 1);
    }
  }

  /** The largest of the first `n` items with its gutter; none counts as zero. */
  function Tallest(sizes: Sizes, n: nat): real {
    if n == 0 then 0.0
    else
      var before, added := Tallest(sizes, n - 1), sizes.Slot(n - 1);
      if added > before then added else before
  }

  /** With the first `n` items placed, neither column is ahead by more than one of them. */
  predicate Balanced(sizes: Sizes, n: nat) {
    var difference := Height(sizes, Placed(sizes, n).left) - Height(sizes, Placed(sizes, n).right);
    -Tallest(sizes, n) <= difference <= Tallest(sizes, n)
  }

  lemma {:induction false} TallestIsMost(sizes: Sizes, n: nat)
    ensures forall i: nat :: i < n ==> sizes.Slot(i) <= Tallest(sizes, n)
    ensures Tallest(sizes, n) == 0.0 || exists i: nat :: i < n && Tallest(sizes, n) == sizes.Slot(i)
  {
    if n > 0 {
      TallestIsMost(sizes, n - 1);
    }
  }

  predicate NoneNegative(sizes: Sizes) {
    sizes.gutter >= 0.0 && forall i :: 0 <= i < |sizes.heights| ==> sizes.heights[i] >= 0.0
  }

  lemma {:induction false} PlacedIsBalanced(sizes: Sizes, n: nat)
    requires NoneNegative(sizes)
    ensures Balanced(sizes, n) && Tallest(sizes, n) >= 0.0
  {
    if n > 0 {
      PlacedIsBalanced(sizes, n - 1);
      PlacedNext(sizes, n - 1);
    }
  }

  // What is drawn

  datatype Box = Gap(height: real) | Tile(height: real, item: nat)

  /** The heights of a column's boxes, top to bottom. */
  function Extent(column: seq<Box>): real {
    if column == [] then 0.0 else column[0].height + Extent(column[1..])
  }

  /** A column shows its items in turn, each at its own height, with a gap between any two. */
  predicate Shows(sizes: Sizes, column: seq<Box>, items: seq<nat>) {
    && Below(items, |sizes.heights|)
    && |column| == (if items == [] then 0 else 2 * |items| - 1)
    && (forall k :: 0 <= k < |items| ==> column[2 * k] == Tile(sizes.heights[items[k]], items[k]))
    && (forall k :: 0 <= k < |items| - 1 ==> column[2 * k + 1] == Gap(sizes.gutter))
  }

  lemma ShowsRest(sizes: Sizes, column: seq<Box>, items: seq<nat>)
    requires Shows(sizes, column, items) && |items| > 1
    ensures Shows(sizes, column[2..], items[1..])
  {
    forall k | 0 <= k < |items| - 1
      ensures column[2..][2 * k] == Tile(sizes.heights[items[1..][k]], items[1..][k])
    {
      assert column[2 * (k + 1)] == Tile(sizes.heights[items[k + 1]], items[k + 1]);
    }
    forall k | 0 <= k < |items| - 2 ensures column[2..][2 * k + 1] == Gap(sizes.gutter) {
      assert column[2 * (k + 1) + 1] == Gap(sizes.gutter);
    }
  }

  /** The tracked height of a column is that of its boxes and one gutter more. */
  lemma {:induction false} HeightIsExtent(sizes: Sizes, column: seq<Box>, items: seq<nat>)
    requires Shows(sizes, column, items)
    ensures Height(sizes, items) == if items == [] then 0.0 else Extent(column) + sizes.gutter
  {
    if items != [] {
      assert column[2 * 0] == Tile(sizes.heights[items[0]], items[0]);
      if |items| == 1 {
        assert column[1..] == [] && items[1..] == [];
      } else {
        ShowsRest(sizes, column, items);
        HeightIsExtent(sizes, column[2..], items[1..]);
        assert column[2 * 0 + 1] == Gap(sizes.gutter);
        assert column[1..][1..] == column[2..];
      }
    }
  }

  /** Adds the item's tile at the bottom of the column, below a gap unless it is the first. */
  method Place(column: seq<Box>, gutter: real, height: real, item: nat, ghost sizes: Sizes, ghost items: seq<nat>)
    returns (after: seq<Box>)
    requires item < |sizes.heights| && height == sizes.heights[item] && gutter == sizes.gutter
    requires Shows(sizes, column, items)
    ensures column <= after && Shows(sizes, after, items + [item])
  {
    after := column;
    if after != [] {
      after := after + [Gap(gutter)];
    }
    after := after + [Tile(height, item)];
  }

  // The grid

  /** What the layout is given: the width to fill, the gutter, and each item's shape. */
  datatype Grid = Grid(maxWidth: real, gutter: real, aspectRatios: seq<real>)
  {
    predicate Valid() {
      forall i :: 0 <= i < |aspectRatios| ==> aspectRatios[i] > 0.0
    }

    function ColumnWidth(): real {
      (maxWidth - gutter) / 2.0
    }

    function ItemHeight(item: nat): real
      requires Valid() && item < |aspectRatios|
    {
      ColumnWidth() / aspectRatios[item]
    }

    function Measured(): Sizes
      requires Valid()
    {
      Sizes(seq(|aspectRatios|, i requires 0 <= i < |aspectRatios| => ItemHeight(i)), gutter)
    }
  }

  /** Two columns and the gutter fill the width, and every item keeps its shape: its width is
      its height times its aspect ratio. */
  lemma MeasuredIsExact(g: Grid)
    requires g.Valid()
    ensures g.ColumnWidth() + g.gutter + g.ColumnWidth() == g.maxWidth
    ensures g.Measured().gutter == g.gutter && |g.Measured().heights| == |g.aspectRatios|
    ensures forall i :: 0 <= i < |g.aspectRatios| ==> g.Measured().heights[i] * g.aspectRatios[i] == g.ColumnWidth()
  {
  }

  lemma Quotient(a: real, b: real)
    requires a >= 0.0 && b > 0.0
    ensures a / b >= 0.0
  {
  }

  lemma SizesAreNotNegative(g: Grid)
    requires g.Valid() && g.gutter >= 0.0 && g.maxWidth >= g.gutter
    ensures NoneNegative(g.Measured())
  {
    forall i | 0 <= i < |g.aspectRatios| ensures g.Measured().heights[i] >= 0.0 {
      Quotient(g.ColumnWidth(), g.aspectRatios[i]);
    }
  }

  lemma LayoutIsBalanced(g: Grid)
    requires g.Valid()
    ensures g.gutter >= 0.0 && g.maxWidth >= g.gutter ==> forall n: nat :: Balanced(g.Measured(), n)
  {
    if g.gutter >= 0.0 && g.maxWidth >= g.gutter {
      SizesAreNotNegative(g);
      forall n: nat ensures Balanced(g.Measured(), n) {
        PlacedIsBalanced(g.Measured(), n);
      }
    }
  }

  /** Places every item where it belongs: the columns partition the items in order, each item
      has its own height, and after every item the columns differ by at most the largest. */
  method Layout(g: Grid) returns (left: seq<Box>, right: seq<Box>, heights: array<real>)
    requires forall i :: 0 <= i < |g.aspectRatios| ==> g.aspectRatios[i] > 0.0
    ensures fresh(heights) && heights.Length == 2
    ensures var c := Placed(g.Measured(), |g.aspectRatios|);
      && Partition(c, |g.aspectRatios|)
      && Shows(g.Measured(), left, c.left) && Shows(g.Measured(), right, c.right)
      && heights[0] == Height(g.Measured(), c.left) && heights[1] == Height(g.Measured(), c.right)
    ensures g.gutter >= 0.0 && g.maxWidth >= g.gutter ==> forall n: nat :: Balanced(g.Measured(), n)
  {
    var columnWidth := g.ColumnWidth();
    ghost var sizes, c := g.Measured(), Columns([], []);
    left, right := [], [];
    heights := new real[2](_ => 0.0);
    for i := 0 to |g.aspectRatios|
      invariant heights.Length == 2 && c == Placed(sizes, i)
      invariant Shows(sizes, left, c.left) && Shows(sizes, right, c.right)
      invariant heights[0] == Height(sizes, c.left) && heights[1] == Height(sizes, c.right)
    {
      var height := columnWidth / g.aspectRatios[i];
      PlacedNext(sizes, i);
      if heights[0] <= heights[1] {
        left := Place(left, g.gutter, height, i, sizes, c.left);
        heights[0] := heights[0] + (height + g.gutter);
      } else {
        right := Place(right, g.gutter, height, i, sizes, c.right);
        heights[1] := heights[1] + (height + g.gutter);
      }
      c := Placed(sizes, i + 1);
    }
    PlacedIsPartition(sizes, |g.aspectRatios|);
    LayoutIsBalanced(g);
  }
}
