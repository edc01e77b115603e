/**
 * The array helpers: the bounds-checked `subscript(optional:)`, `chunk(_:)`, and the grid
 * that lays items out in rows of `columns` cells, padding the last row with filler cells.
 */
module Collections {
  import opened Wrappers
  import opened Seqs

  /** `a[optional: index]`: the element when the index is in bounds, nil otherwise. */
  function OptionalSubscript<T>(a: seq<T>, index: int): (r: Option<T>)
    ensures r.None? <==> index < 0 || index >= |a|
    ensures r.Some? ==> 0 <= index < |a| && r.value == a[index]
  {
    if index < 0 || index >= |a| then None else Some(a[index])
  }

  /** Every element of `a` is reached through the optional subscript at its own index. */
  lemma OptionalSubscriptReachesAll<T>(a: seq<T>, x: T)
    ensures x in a <==> exists i :: OptionalSubscript(a, i) == Some(x)
  {
    if x in a {
      var i :| 0 <= i < |a| && a[i] == x;
      assert OptionalSubscript(a, i) == Some(x);
    }
  }

  function Min(x: int, y: int): int
  {
    if x < y then x else y
  }

  /**
   * The stride of `chunk(size)` from `start`: the slice `a[start ..< min(start + size, count)]`,
   * then the rest of the stride from `start + size`, until `start` reaches `count`. A
   * negative stride never moves towards `count`, and gives nothing.
   */
  function ChunkFrom<T>(a: seq<T>, size: int, start: nat): (r: seq<seq<T>>)
    requires size != 0 && start <= |a|
    ensures size < 0 ==> r == []
    ensures size > 0 ==> Flatten(r) == a[start..]
    ensures size > 0 ==> forall i :: 0 <= i < |r| - 1 ==> |r[i]| == size
    ensures size > 0 ==> r != [] ==> 1 <= |r[|r| - 1]| <= size
    ensures size > 0 ==> (start == |a| <==> r == [])
    decreases |a| - start
  {
    if start == |a| || size < 0 then []
    else
      var end := Min(start + size, |a|);
      var rest := ChunkFrom(a, size, end);
      var r := [a[start..end]] + rest;
      assert r[0] == a[start..end] && r[1..] == rest;
      assert forall i :: 1 <= i < |r| ==> r[i] == rest[i - 1];
      assert a[start..] == a[start..end] + a[end..];
      r
  }

  /**
   * `chunk(size)`: the stride from 0. For a positive size, concatenated, the chunks give the
   * array back; all have `size` elements but the last, which has between 1 and `size`; an
   * empty array gives no chunk. A negative size gives no chunk; a zero stride traps, hence
   * `size != 0`.
   */
  function Chunk<T>(a: seq<T>, size: int): (r: seq<seq<T>>)
    requires size != 0
    ensures size < 0 ==> r == []
    ensures size > 0 ==> Flatten(r) == a
    ensures size > 0 ==> forall i :: 0 <= i < |r| - 1 ==> |r[i]| == size
    ensures size > 0 ==> r != [] ==> 1 <= |r[|r| - 1]| <= size
    ensures size > 0 ==> (a == [] <==> r == [])
  {
    ChunkFrom(a, size, 0)
  }

  lemma MulStep(m: int, size: int)
    ensures (m + 1) * size == m * size + size
  {
  }

  lemma {:induction false} ChunkFromCount<T>(a: seq<T>, size: int, start: nat)
    requires size > 0 && start <= |a|
    ensures (|ChunkFrom(a, size, start)| - 1) * size < |a| - start <= |ChunkFrom(a, size, start)| * size
    decreases |a| - start
  {
    if start < |a| {
      var end := Min(start + size, |a|);
      var m := |ChunkFrom(a, size, end)|;
      ChunkFromCount(a, size, end);
      assert |ChunkFrom(a, size, start)| == m + 1;
      MulStep(m, size);
    }
  }

  /**
   * The number of chunks is the count divided by `size`, rounded up: `size` times one chunk
   * fewer falls short of the count, `size` times their number reaches it.
   */
  lemma ChunkCount<T>(a: seq<T>, size: int)
    requires size > 0
    ensures (|Chunk(a, size)| - 1) * size < |a| <= |Chunk(a, size)| * size
  {
    ChunkFromCount(a, size, 0);
  }

  // ---------------------------------------------------------------- the grid

  /**
   * One row of the grid: the row's items followed by `columns - items.count` filler cells
   * (`None`). The filler range traps when the row is wider than `columns`.
   */
  function PaddedRow<T>(row: seq<T>, columns: int): (r: seq<Option<T>>)
    requires |row| <= columns
    ensures |r| == columns
    ensures forall i :: 0 <= i < |row| ==> r[i] == Some(row[i])
    ensures forall i :: |row| <= i < columns ==> r[i].None?
    decreases columns - |row|
  {
    if |row| == columns then
      seq(|row|, i requires 0 <= i < |row| => Some(row[i]))
    else
      var r := PaddedRow(row, columns - 1) + [None];
      assert forall i :: 0 <= i < columns - 1 ==> r[i] == PaddedRow(row, columns - 1)[i];
      r
  }

  function PadRows<T>(rows: seq<seq<T>>, columns: int): (r: seq<seq<Option<T>>>)
    requires forall i :: 0 <= i < |rows| ==> |rows[i]| <= columns
    ensures |r| == |rows|
    ensures forall i :: 0 <= i < |r| ==> r[i] == PaddedRow(rows[i], columns)
  {
    if rows == [] then [] else [PaddedRow(rows[0], columns)] + PadRows(rows[1..], columns)
  }

  /**
   * `GridView(items:columns:)`: the items chunked by `columns`, each row padded with filler
   * cells. Every row of `chunk(columns)` is at most `columns` wide, so the filler ranges are
   * well formed, and every row ends up exactly `columns` cells wide. Negative `columns`
   * give no row; zero traps in `chunk`.
   */
  function Grid<T>(items: seq<T>, columns: int): (r: seq<seq<Option<T>>>)
    requires columns != 0
    ensures |r| == |Chunk(items, columns)|
    ensures forall i :: 0 <= i < |r| ==> |r[i]| == columns
    ensures columns < 0 ==> r == []
    ensures columns > 0 ==> (r == [] <==> items == [])
  {
    PadRows(Chunk(items, columns), columns)
  }

  /** The items among a row of cells, dropping the fillers. */
  function Present<T>(cells: seq<Option<T>>): seq<T>
  {
    if cells == [] then []
    else (if cells[0].Some? then [cells[0].value] else []) + Present(cells[1..])
  }

  lemma {:induction false} PresentConcat<T>(a: seq<Option<T>>, b: seq<Option<T>>)
    ensures Present(a + b) == Present(a) + Present(b)
  {
    if a == [] {
      assert a + b == b;
    } else {
      assert (a + b)[0] == a[0] && (a + b)[1..] == a[1..] + b;
      PresentConcat(a[1..], b);
    }
  }

  lemma {:induction false} PresentPadded<T>(row: seq<T>, columns: int)
    requires |row| <= columns
    ensures Present(PaddedRow(row, columns)) == row
    decreases columns - |row|, |row|
  {
    if |row| == columns {
      var cells := PaddedRow(row, columns);
      if row != [] {
        assert cells[1..] == PaddedRow(row[1..], |row| - 1);
        PresentPadded(row[1..], |row| - 1);
      }
    } else {
      PresentPadded(row, columns - 1);
      PresentConcat(PaddedRow(row, columns - 1), [None]);
      var filler: seq<Option<T>> := [None];
      assert Present(filler) == Present(filler[1..]);
    }
  }

  lemma {:induction false} PresentRows<T>(rows: seq<seq<T>>, columns: int)
    requires forall i :: 0 <= i < |rows| ==> |rows[i]| <= columns
    ensures Present(Flatten(PadRows(rows, columns))) == Flatten(rows)
  {
    if rows != [] {
      var padded := PadRows(rows, columns);
      assert padded[0] == PaddedRow(rows[0], columns) && padded[1..] == PadRows(rows[1..], columns);
      PresentRows(rows[1..], columns);
      PresentConcat(padded[0], Flatten(padded[1..]));
      PresentPadded(rows[0], columns);
    }
  }

  /** Reading the grid row by row, skipping the fillers, gives the items in their order. */
  lemma GridKeepsOrder<T>(items: seq<T>, columns: int)
    requires columns > 0
    ensures Present(Flatten(Grid(items, columns))) == items
  {
    PresentRows(Chunk(items, columns), columns);
  }
}
