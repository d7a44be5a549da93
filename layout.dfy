/**
 * The grid geometry of the main view: how many items fit on a row of a window
 * of a given width, and how `view` breaks the item sequence into rows.
 */
module Layout {
  /** `GRID_ITEM_WIDTH`: the width reserved for one grid cell, padding included. */
  const GridItemWidth: nat := 256

  /** Items per row for a window `width` wide: the number of whole cells that fit. */
  function RowCapacity(width: nat): (n: nat)
    ensures n * GridItemWidth <= width < (n + 1) * GridItemWidth
    ensures n == 0 <==> width < GridItemWidth
  {
    width / GridItemWidth
  }

  /** A wider window never holds fewer items per row. */
  lemma RowCapacityMonotone(w1: nat, w2: nat)
    requires w1 <= w2
    ensures RowCapacity(w1) <= RowCapacity(w2)
  {
  }

  /**
   * The grid widget under construction: the rows closed by `insert_row` and the
   * row that `push` currently appends to.
   */
  datatype Grid<T> = Grid(closed: seq<seq<T>>, current: seq<T>) {
    /** All rows of the grid, the current one last. */
    function Rows(): seq<seq<T>>
    {
      closed + [current]
    }

    /** `Grid::push`: place an item after the last one of the current row. */
    function Push(x: T): Grid<T>
    {
      this.(current := current + [x])
    }

    /** `Grid::insert_row`: later items go to a new, empty row. */
    function InsertRow(): Grid<T>
    {
      Grid(closed + [current], [])
    }
  }

  /** `widget::grid()`: one empty row. */
  function NewGrid<T>(): Grid<T>
  {
    Grid([], [])
  }

  /** Consecutive rows of `n` items; the last row holds the remaining `|s| % n` items and may be empty. */
  function Chunks<T>(s: seq<T>, n: nat): seq<seq<T>>
    requires n >= 1
    decreases |s|
  {
    if |s| < n then [s] else [s[..n]] + Chunks(s[n..], n)
  }

  /**
   * The rows `view` lays `items` out in for a capacity of `n`: with `n == 0`
   * the break counter never equals `n`, so everything lands in one row.
   */
  function GridRows<T>(items: seq<T>, n: nat): seq<seq<T>>
  {
    if n == 0 then [items] else Chunks(items, n)
  }

  /** The concatenation of a sequence of rows. */
  function Flatten<T>(rows: seq<seq<T>>): seq<T>
  {
    if rows == [] then [] else rows[0] + Flatten(rows[1..])
  }

  /**
   * The row-breaking loop of `view`: every item is pushed in order, and a row
   * break follows each time the counter reaches `n`. Returns the grid and the
   * number of `insert_row` calls.
   */
  method BuildGrid<T>(items: seq<T>, n: nat) returns (grid: Grid<T>, breaks: nat)
    ensures grid.Rows() == GridRows(items, n)
    ensures breaks == if n == 0 then 0 else |items| / n
  {
    grid := NewGrid();
    breaks := 0;
    var rowCount := 0;
    for i := 0 to |items|
      invariant LaidOut(items, n, i, grid, rowCount, breaks)
    {
      IterationStep(items, n, i, grid, rowCount, breaks);
      grid := grid.Push(items[i]);
      rowCount := rowCount + 1;
      if rowCount == n {
        grid := grid.InsertRow();
        rowCount := 0;
        breaks := breaks + 1;
      }
    }
    assert items[..|items|] == items;
    if n >= 1 {
      DivUnique(|items|, n, breaks, rowCount);
    }
  }

  /**
   * The loop invariant of `BuildGrid` after the first `i` items: the grid holds
   * their rows, the counter is the length of the current row, and with `n >= 1`
   * the counter stays below `n` while `breaks` full rows account for the rest.
   */
  ghost predicate LaidOut<T>(items: seq<T>, n: nat, i: nat, grid: Grid<T>, rowCount: nat, breaks: nat)
  {
    && i <= |items|
    && grid.Rows() == GridRows(items[..i], n)
    && rowCount == |grid.current|
    && (n == 0 ==> rowCount == i && breaks == 0)
    && (n >= 1 ==> rowCount < n && breaks * n + rowCount == i)
  }

  /** One iteration of the loop: push item `i`, count it, and break the row when the count reaches `n`. */
  lemma IterationStep<T>(items: seq<T>, n: nat, i: nat, grid: Grid<T>, rowCount: nat, breaks: nat)
    requires i < |items| && LaidOut(items, n, i, grid, rowCount, breaks)
    ensures var pushed := grid.Push(items[i]);
      if rowCount + 1 == n then LaidOut(items, n, i + 1, pushed.InsertRow(), 0, breaks + 1)
      else LaidOut(items, n, i + 1, pushed, rowCount + 1, breaks)
  {
    assert items[..i + 1] == items[..i] + [items[i]];
    PushStep(grid, items[..i], items[i], n);
    if rowCount + 1 == n {
      MulSplit(breaks, 1, n);
    }
  }

  /**
   * Pushing `x` onto the grid of `s` (and breaking the row when it reaches
   * `n` items) gives the grid of `s + [x]`.
   */
  lemma PushStep<T>(g: Grid<T>, s: seq<T>, x: T, n: nat)
    requires g.Rows() == GridRows(s, n)
    ensures n >= 1 ==> |g.current| < n
    ensures var pushed := g.Push(x);
      (if |pushed.current| == n then pushed.InsertRow() else pushed).Rows() == GridRows(s + [x], n)
  {
    var pushed := g.Push(x);
    if n >= 1 {
      ChunksSnoc(s, x, n);
      var c := Chunks(s, n);
      assert g.closed == c[..|c| - 1] && g.current == c[|c| - 1];
      if |pushed.current| == n {
        assert pushed.InsertRow().Rows() == g.closed + [g.current + [x]] + [[]];
      }
    } else {
      assert |g.closed| + 1 == |[s]|;
      assert g.Rows()[0] == g.current;
    }
  }

  /** `q` and `r` are the quotient and remainder of `a` by `n` as soon as `a == q * n + r` with `0 <= r < n`. */
  lemma DivUnique(a: nat, n: nat, q: nat, r: nat)
    requires n >= 1 && r < n && a == q * n + r
    ensures q == a / n && r == a % n
  {
    var q', r' := a / n, a % n;
    if q < q' {
      MulSplit(q, q' - q, n);
    } else if q > q' {
      MulSplit(q', q - q', n);
    }
  }

  /** `(b + d) * n` exceeds `b * n` by at least `n` when `d >= 1`. */
  lemma MulSplit(b: nat, d: nat, n: nat)
    requires d >= 1
    ensures (b + d) * n == b * n + d * n && d * n >= n
  {
  }

  /**
   * Appending one item to `s` adds it to the last chunk, and opens a new empty
   * chunk exactly when that fills the last chunk to `n`.
   */
  lemma {:induction false} ChunksSnoc<T>(s: seq<T>, x: T, n: nat)
    requires n >= 1
    ensures var c := Chunks(s, n);
      && |c| >= 1 && |c[|c| - 1]| < n
      && Chunks(s + [x], n) ==
           var grown := c[..|c| - 1] + [c[|c| - 1] + [x]];
           if |c[|c| - 1]| + 1 == n then grown + [[]] else grown
    decreases |s|
  {
    if |s| < n {
      if |s| + 1 == n {
        assert (s + [x])[..n] == s + [x];
        assert (s + [x])[n..] == [];
      }
    } else {
      var t := s[n..];
      assert (s + [x])[..n] == s[..n];
      assert (s + [x])[n..] == t + [x];
      ChunksSnoc(t, x, n);
    }
  }

  /** Reading the rows in order gives back the items: nothing lost, duplicated or reordered. */
  lemma {:induction false} FlattenGridRows<T>(items: seq<T>, n: nat)
    ensures Flatten(GridRows(items, n)) == items
  {
    if n == 0 {
      assert Flatten([items]) == items + Flatten([]);
    } else {
      FlattenChunks(items, n);
    }
  }

  lemma {:induction false} FlattenChunks<T>(s: seq<T>, n: nat)
    requires n >= 1
    ensures Flatten(Chunks(s, n)) == s
    decreases |s|
  {
    if |s| < n {
      assert Flatten([s]) == s + Flatten([]);
    } else {
      var c := Chunks(s, n);
      FlattenChunks(s[n..], n);
      assert c[1..] == Chunks(s[n..], n);
      assert s == s[..n] + s[n..];
    }
  }

  /**
   * With `n >= 1` there are `|items| / n + 1` rows; every row but the last is
   * full, and the last holds the `|items| % n` left over (none when `n` divides
   * `|items|`: the break after the last item leaves an empty row).
   */
  lemma {:induction false} GridRowsShape<T>(items: seq<T>, n: nat)
    requires n >= 1
    ensures var rows := GridRows(items, n);
      && |rows| == |items| / n + 1
      && (forall i :: 0 <= i < |rows| - 1 ==> |rows[i]| == n)
      && |rows[|rows| - 1]| == |items| % n
  {
    var k := ChunksShape(items, n);
    DivUnique(|items|, n, k, |items| - k * n);
  }

  lemma {:induction false} ChunksShape<T>(s: seq<T>, n: nat) returns (k: nat)
    requires n >= 1
    ensures var c := Chunks(s, n);
      && |c| == k + 1
      && (forall i :: 0 <= i < k ==> |c[i]| == n)
      && |c[k]| == |s| - k * n < n
    decreases |s|
  {
    if |s| < n {
      k := 0;
    } else {
      var k' := ChunksShape(s[n..], n);
      k := k' + 1;
      var c := Chunks(s, n);
      assert c[1..] == Chunks(s[n..], n);
      assert |c[k]| == |s[n..]| - k' * n;
    }
  }

  /** Five items in a 600-wide window: two per row, in rows [1, 2], [3, 4], [5]. */
  lemma ExampleFiveItems()
    ensures GridRows([1, 2, 3, 4, 5], RowCapacity(600)) == [[1, 2], [3, 4], [5]]
  {
    var s := [1, 2, 3, 4, 5];
    assert RowCapacity(600) == 2;
    var t := s[2..];
    assert t == [3, 4, 5];
    assert t[..2] == [3, 4] && t[2..] == [5];
    assert Chunks([5], 2) == [[5]];
    assert Chunks(t, 2) == [[3, 4], [5]];
    assert s[..2] == [1, 2];
  }
}
