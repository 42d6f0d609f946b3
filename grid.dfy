/**
 * The layout of `createFragments`: a 6 x 6 grid of cells with row and column
 * running over -3 .. 2, of which a cell becomes a fragment when its centre lies
 * strictly inside the circle of radius 4 fragment sizes.
 */
module Grid {
  const GridSize: int := 6
  const Radius: int := 4
  /** The fragment size in rem. */
  const FragmentSize: real := 1.25

  datatype Cell = Cell(row: int, col: int)

  /** The rows and columns the two loops visit: -GridSize/2 <= x < GridSize/2. */
  predicate InGrid(c: Cell) {
    -GridSize / 2 <= c.row < GridSize / 2 && -GridSize / 2 <= c.col < GridSize / 2
  }

  /** The squared distance from the centre, in rem, of the unperturbed cell position. */
  function DistanceSquared(c: Cell): (d: real) {
    var x := c.col as real * FragmentSize;
    var y := c.row as real * FragmentSize;
    x * x + y * y
  }

  /** The membership test, cleared of the square root and of the fragment size. */
  predicate Kept(c: Cell) {
    c.col * c.col + c.row * c.row < Radius * Radius
  }

  /**
   * The test as written, distance < radius * fragmentSize, is the integer test:
   * both sides are non-negative, so comparing squares decides it, and the common
   * factor 1.25 * 1.25 cancels.
   */
  lemma KeptIsDistanceTest(c: Cell)
    ensures Kept(c) <==> DistanceSquared(c) < (Radius as real * FragmentSize) * (Radius as real * FragmentSize)
  {
  }

  /** The cells in the order of the two loops: row-major, rows and columns ascending. */
  function GridCells(): (cells: seq<Cell>)
    ensures |cells| == GridSize * GridSize
    ensures forall i :: 0 <= i < |cells| ==> InGrid(cells[i])
  {
    seq(GridSize * GridSize, i requires 0 <= i < GridSize * GridSize =>
      Cell(i / GridSize - GridSize / 2, i % GridSize - GridSize / 2))
  }

  /** Position of an in-grid cell in that order. */
  function Index(c: Cell): (k: nat)
    requires InGrid(c)
    ensures k < GridSize * GridSize && GridCells()[k] == c
  {
    (c.row + GridSize / 2) * GridSize + (c.col + GridSize / 2)
  }

  /** The kept elements of `s`, in order. */
  function KeptOf(s: seq<Cell>): (r: seq<Cell>)
    ensures |r| <= |s|
  {
    if s == [] then []
    else KeptOf(s[..|s| - 1]) + (if Kept(s[|s| - 1]) then [s[|s| - 1]] else [])
  }

  /** The filter keeps exactly the elements of `s` that pass the test. */
  lemma {:induction false} KeptOfMembership(s: seq<Cell>, c: Cell)
    ensures c in KeptOf(s) <==> c in s && Kept(c)
  {
    if s != [] {
      var init := s[..|s| - 1];
      KeptOfMembership(init, c);
      assert s == init + [s[|s| - 1]];
    }
  }

  /** The fragments `createFragments` appends, in order. */
  function Layout(): (cells: seq<Cell>) {
    KeptOf(GridCells())
  }

  /** One more cell of the loop order: the filter grows by that cell exactly when it is kept. */
  lemma KeptOfStep(k: nat)
    requires k < GridSize * GridSize
    ensures var g := GridCells();
      KeptOf(g[..k + 1]) == KeptOf(g[..k]) + (if Kept(g[k]) then [g[k]] else [])
  {
    var g := GridCells();
    assert g[..k + 1][..k] == g[..k];
  }

  /** The nested row/col loops, appending each cell that passes the distance test. */
  method CreateFragments() returns (cells: seq<Cell>)
    ensures cells == Layout()
  {
    cells := [];
    ghost var k := 0;
    var row := -GridSize / 2;
    while row < GridSize / 2
      invariant -GridSize / 2 <= row <= GridSize / 2
      invariant k == (row + 3) * 6
      invariant cells == KeptOf(GridCells()[..k])
    {
      var col := -GridSize / 2;
      while col < GridSize / 2
        invariant -GridSize / 2 <= col <= GridSize / 2
        invariant k == (row + 3) * 6 + (col + 3)
        invariant cells == KeptOf(GridCells()[..k])
      {
        assert Index(Cell(row, col)) == k;
        KeptOfStep(k);
        if Kept(Cell(row, col)) {
          cells := cells + [Cell(row, col)];
        }
        col := col + 1;
        k := k + 1;
      }
      row := row + 1;
    }
    assert GridCells()[..k] == GridCells();
  }

  /** Only the corner (-3, -3) fails the test: 9 + 9 = 18 is not below 16. */
  lemma KeptExactlyOffCorner(c: Cell)
    requires InGrid(c)
    ensures Kept(c) <==> c != Cell(-3, -3)
  {
  }

  /** When every element but the first is kept and the first is not, the filter drops just it. */
  lemma {:induction false} KeptOfDropsFirst(s: seq<Cell>)
    requires s != [] && !Kept(s[0])
    requires forall i :: 1 <= i < |s| ==> Kept(s[i])
    ensures KeptOf(s) == s[1..]
  {
    if |s| > 1 {
      KeptOfDropsFirst(s[..|s| - 1]);
      assert s[..|s| - 1][1..] + [s[|s| - 1]] == s[1..];
    }
  }

  /** The layout is the grid without its first corner: 35 fragments, in loop order. */
  lemma LayoutIsGridWithoutCorner()
    ensures Layout() == GridCells()[1..]
    ensures |Layout()| == 35
  {
    var g := GridCells();
    assert g[0] == Cell(-3, -3);
    forall i | 1 <= i < |g| ensures Kept(g[i]) {
      KeptExactlyOffCorner(g[i]);
    }
    KeptOfDropsFirst(g);
  }

  /** A cell is a fragment exactly when it is in the grid and passes the test. */
  lemma LayoutMembership(c: Cell)
    ensures c in Layout() <==> InGrid(c) && Kept(c)
  {
    LayoutIsGridWithoutCorner();
    var g := GridCells();
    if InGrid(c) && Kept(c) {
      KeptExactlyOffCorner(c);
      assert g[Index(c)] == c && Index(c) != 0;
      assert c == g[1..][Index(c) - 1];
    }
    if c in Layout() {
      var j :| 0 <= j < 35 && Layout()[j] == c;
      assert c == g[j + 1];
      assert InGrid(c);
      KeptExactlyOffCorner(c);
    }
  }

  /** Row-major order: an earlier row, or the same row and an earlier column. */
  predicate Before(a: Cell, b: Cell) {
    a.row < b.row || (a.row == b.row && a.col < b.col)
  }

  /** No fragment is created twice: the layout is strictly increasing in loop order. */
  lemma LayoutInLoopOrder(i: nat, j: nat)
    requires i < j < |Layout()|
    ensures Before(Layout()[i], Layout()[j])
  {
    LayoutIsGridWithoutCorner();
    var g := GridCells();
    assert Layout()[i] == g[i + 1] && Layout()[j] == g[j + 1];
  }
}
