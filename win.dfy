/** Four-in-a-row detection (`_processDirections`, `_hasDirectionWon`,
    `_hasWon`): every window of four cells along one of the four axes is
    tested, starting from the cells that the scan table lists. */
module Win {
  import opened Wrappers
  import opened Board

  /** One entry of the scan table: the start columns and start rows as the
      arguments of `Array.prototype.slice` (a negative end counts from the
      back), and the step from one cell of a window to the next. */
  datatype Scan = Scan(columnsBegin: int, columnsEnd: int, rowsBegin: int, rowsEnd: int, dc: int, dr: int)

  /** Horizontal, vertical, rising diagonal, falling diagonal. */
  const Scans: seq<Scan> := [
    Scan(0, -(TargetLength as int) + 1, 0, RowsCount, 1, 0),
    Scan(0, ColumnsCount, 0, -(TargetLength as int) + 1, 0, 1),
    Scan(0, -(TargetLength as int) + 1, 0, -(TargetLength as int) + 1, 1, 1),
    Scan(0, -(TargetLength as int) + 1, TargetLength - 1, RowsCount, 1, -1)
  ]

  /** Index normalisation of `Array.prototype.slice` on an array of `len`
      elements. */
  function SliceIndex(x: int, len: nat): (r: nat)
    ensures r <= len
    ensures x >= 0 ==> r == if x < len then x else len
    ensures x < 0 ==> r == if len + x < 0 then 0 else len + x
  {
    if x < 0 then (if len + x < 0 then 0 else len + x)
    else if x < len then x else len
  }

  /** (i, j) is one of the start cells the scan visits. */
  predicate Starts(s: Scan, i: int, j: int) {
    && SliceIndex(s.columnsBegin, ColumnsCount) <= i < SliceIndex(s.columnsEnd, ColumnsCount)
    && SliceIndex(s.rowsBegin, RowsCount) <= j < SliceIndex(s.rowsEnd, RowsCount)
  }

  /** The four cells from (i, j) along (dc, dr) all lie on the board. */
  predicate WindowInBounds(i: int, j: int, dc: int, dr: int)
    requires UnitStep(dc, dr)
  {
    forall k | 0 <= k < TargetLength :: InBounds(Along(i, dc, k), Along(j, dr, k))
  }

  /** A scan is safe when every window it visits stays on the board. */
  ghost predicate ScanSafe(s: Scan) {
    UnitStep(s.dc, s.dr) && forall i, j | Starts(s, i, j) :: WindowInBounds(i, j, s.dc, s.dr)
  }

  /** The start ranges of the table keep every cell access on the board:
      columns 0..3 for the horizontal and both diagonal scans, rows 0..2 for
      the vertical and the rising scan, rows 3..5 for the falling one. */
  lemma ScansSafe()
    ensures forall d | 0 <= d < |Scans| :: ScanSafe(Scans[d])
    ensures forall i, j :: Starts(Scans[0], i, j) <==> 0 <= i <= 3 && 0 <= j <= 5
    ensures forall i, j :: Starts(Scans[1], i, j) <==> 0 <= i <= 6 && 0 <= j <= 2
    ensures forall i, j :: Starts(Scans[2], i, j) <==> 0 <= i <= 3 && 0 <= j <= 2
    ensures forall i, j :: Starts(Scans[3], i, j) <==> 0 <= i <= 3 && 3 <= j <= 5
  {
  }

  /** The inner loop over k: all four cells of the window hold `p`. */
  predicate Window(g: seq<seq<Cell>>, p: char, i: int, j: int, dc: int, dr: int)
    requires Shaped(g) && UnitStep(dc, dr) && WindowInBounds(i, j, dc, dr)
  {
    forall k | 0 <= k < TargetLength :: g[Along(i, dc, k)][Along(j, dr, k)] == Some(p)
  }

  /** `_hasDirectionWon`: some start cell of the scan begins a window of `p`. */
  predicate DirectionWon(g: seq<seq<Cell>>, p: char, s: Scan)
    requires Shaped(g) && ScanSafe(s)
  {
    exists i, j | 0 <= i < ColumnsCount && 0 <= j < RowsCount && Starts(s, i, j) ::
      Window(g, p, i, j, s.dc, s.dr)
  }

  /** `_hasWon`: some scan of the table finds a window of `p`. */
  predicate Won(g: seq<seq<Cell>>, p: char)
    requires Shaped(g)
  {
    ScansSafe();
    exists d | 0 <= d < |Scans| :: DirectionWon(g, p, Scans[d])
  }

  /** The four axes as unit vectors. */
  const Axes: seq<(int, int)> := [(1, 0), (0, 1), (1, 1), (1, -1)]

  /** Reference statement of a win, without any scan table: four cells in a
      line along one of the four axes, all on the board and all holding `p`. */
  ghost predicate HasFour(g: seq<seq<Cell>>, p: char)
    requires Shaped(g)
  {
    exists i, j, a | 0 <= a < |Axes| && WindowInBounds(i, j, Axes[a].0, Axes[a].1) ::
      Window(g, p, i, j, Axes[a].0, Axes[a].1)
  }

  /** The scan finds a win exactly when four in a row exist anywhere: the
      start ranges miss no window that lies on the board. */
  lemma WonIffHasFour(g: seq<seq<Cell>>, p: char)
    requires Shaped(g)
    ensures Won(g, p) <==> HasFour(g, p)
  {
    ScansSafe();
    if Won(g, p) {
      var d :| 0 <= d < |Scans| && DirectionWon(g, p, Scans[d]);
      var s := Scans[d];
      var i, j :| Starts(s, i, j) && Window(g, p, i, j, s.dc, s.dr);
      assert (s.dc, s.dr) == Axes[d];
      assert WindowInBounds(i, j, Axes[d].0, Axes[d].1);
    }
    if HasFour(g, p) {
      var i, j, a :| 0 <= a < |Axes| && WindowInBounds(i, j, Axes[a].0, Axes[a].1)
        && Window(g, p, i, j, Axes[a].0, Axes[a].1);
      var s := Scans[a];
      assert InBounds(Along(i, s.dc, 0), Along(j, s.dr, 0));
      assert InBounds(Along(i, s.dc, 3), Along(j, s.dr, 3));
      assert Starts(s, i, j);
      assert DirectionWon(g, p, s);
    }
  }

  /** A win needs a token of `p` somewhere on the board. */
  lemma WonHasToken(g: seq<seq<Cell>>, p: char)
    requires Shaped(g) && Won(g, p)
    ensures exists i, j | InBounds(i, j) :: g[i][j] == Some(p)
  {
    ScansSafe();
    var d :| 0 <= d < |Scans| && DirectionWon(g, p, Scans[d]);
    var s := Scans[d];
    var i, j :| Starts(s, i, j) && Window(g, p, i, j, s.dc, s.dr);
    assert g[Along(i, s.dc, 0)][Along(j, s.dr, 0)] == Some(p);
  }
}
