/** The game field as a value: seven columns of six cells, row 0 at the bottom,
    with the gravity rule, the lowest-empty-cell search, the topmost-token
    lookup and the move that drops a token into a column. */
module Board {
  import opened Wrappers

  const ColumnsCount: nat := 7
  const RowsCount: nat := 6
  const TargetLength: nat := 4

  /** A cell is empty (`undefined` in the source) or holds a one-character
      token; any character counts as occupied, not only 'y' and 'r'. */
  type Cell = Option<char>

  /** ColumnsCount columns of RowsCount cells each. */
  predicate Shaped(g: seq<seq<Cell>>) {
    |g| == ColumnsCount && forall i | 0 <= i < |g| :: |g[i]| == RowsCount
  }

  predicate InBounds(c: int, r: int) {
    0 <= c < ColumnsCount && 0 <= r < RowsCount
  }

  /** Steps along an axis move by -1, 0 or +1 in each coordinate. */
  predicate UnitStep(dc: int, dr: int) {
    -1 <= dc <= 1 && -1 <= dr <= 1
  }

  /** The coordinate `x + step * k` reached after k unit steps. */
  function Along(x: int, step: int, k: int): (y: int)
    requires -1 <= step <= 1
    ensures y == x + step * k
  {
    if step == 0 then x else if step > 0 then x + k else x - k
  }

  function EmptyGrid(): (g: seq<seq<Cell>>)
    ensures Shaped(g)
    ensures forall i, j | InBounds(i, j) :: g[i][j].None?
  {
    seq(ColumnsCount, _ => seq(RowsCount, _ => None))
  }

  /** An immutable copy of a field: its cells and the `_player` marker
      (None while the marker is still `undefined`). */
  datatype Snapshot = Snapshot(columns: seq<seq<Cell>>, player: Option<char>) {
    predicate Valid() {
      Shaped(columns)
    }
  }

  /** Two shaped grids that agree cell by cell are equal. */
  lemma GridExtensionality(g: seq<seq<Cell>>, h: seq<seq<Cell>>)
    requires Shaped(g) && Shaped(h)
    requires forall i, j | InBounds(i, j) :: g[i][j] == h[i][j]
    ensures g == h
  {
    forall i | 0 <= i < ColumnsCount
      ensures g[i] == h[i]
    {
      assert forall j | 0 <= j < RowsCount :: g[i][j] == h[i][j];
    }
  }

  // ---------------------------------------------------------------------------
  // Gravity and counting

  /** Gravity: the occupied cells of a column form a prefix of it. */
  predicate Stacked(col: seq<Cell>) {
    forall j, k | 0 <= j < k < |col| :: col[k].Some? ==> col[j].Some?
  }

  predicate AllStacked(g: seq<seq<Cell>>) {
    forall i | 0 <= i < |g| :: Stacked(g[i])
  }

  predicate Full(col: seq<Cell>) {
    forall j | 0 <= j < |col| :: col[j].Some?
  }

  /** Number of occupied cells of a column. */
  function TokenCount(col: seq<Cell>): (n: nat)
    ensures n <= |col|
    ensures n == |col| <==> Full(col)
    ensures n == 0 <==> forall j | 0 <= j < |col| :: col[j].None?
  {
    if |col| == 0 then 0
    else
      var rest := TokenCount(col[1..]);
      assert forall j | 1 <= j < |col| :: col[j] == col[1..][j - 1];
      (if col[0].Some? then 1 else 0) + rest
  }

  /** Number of empty cells of a whole grid: the measure that every move
      decreases. */
  function EmptyCount(g: seq<seq<Cell>>): nat {
    if |g| == 0 then 0 else (|g[0]| - TokenCount(g[0])) + EmptyCount(g[1..])
  }

  lemma {:induction false} EmptyCountUpdate(g: seq<seq<Cell>>, c: nat, col: seq<Cell>)
    requires c < |g|
    ensures EmptyCount(g[c := col]) + (|g[c]| - TokenCount(g[c])) == EmptyCount(g) + (|col| - TokenCount(col))
  {
    if c > 0 {
      assert g[c := col][1..] == g[1..][c - 1 := col];
      EmptyCountUpdate(g[1..], c - 1, col);
    } else {
      assert g[c := col][1..] == g[1..];
    }
  }

  lemma {:induction false} EmptyCountZero(g: seq<seq<Cell>>)
    ensures EmptyCount(g) == 0 <==> forall i | 0 <= i < |g| :: Full(g[i])
  {
    if |g| > 0 {
      EmptyCountZero(g[1..]);
      assert forall i | 1 <= i < |g| :: g[i] == g[1..][i - 1];
    }
  }

  /** The index of the lowest cell that holds no token (`findIndex` with the
      test `typeof cell !== 'string'`), None when every cell is occupied. */
  function FirstEmpty(col: seq<Cell>): (r: Option<nat>)
    ensures r.None? <==> Full(col)
    ensures r.Some? ==> r.value < |col| && col[r.value].None?
    ensures r.Some? ==> forall j | 0 <= j < r.value :: col[j].Some?
  {
    if |col| == 0 then None
    else if col[0].None? then Some(0)
    else
      match FirstEmpty(col[1..])
      case None => None
      case Some(k) => Some(k + 1)
  }

  /** Under gravity the lowest empty cell sits right above the tokens. */
  lemma {:induction false} StackedFirstEmpty(col: seq<Cell>)
    requires Stacked(col)
    ensures FirstEmpty(col) == if Full(col) then None else Some(TokenCount(col))
  {
    if |col| > 0 {
      var rest := col[1..];
      assert forall j | 0 <= j < |rest| :: rest[j] == col[j + 1];
      if col[0].None? {
        assert forall j | 0 <= j < |col| :: col[j].None?;
      } else {
        StackedFirstEmpty(rest);
        assert Full(col) <==> Full(rest);
      }
    }
  }

  lemma {:induction false} TokenCountSet(col: seq<Cell>, row: nat, x: Cell)
    requires row < |col| && col[row].None? && x.Some?
    ensures TokenCount(col[row := x]) == TokenCount(col) + 1
  {
    if row > 0 {
      assert col[row := x][1..] == col[1..][row - 1 := x];
      TokenCountSet(col[1..], row - 1, x);
    } else {
      assert col[row := x][1..] == col[1..];
    }
  }

  // ---------------------------------------------------------------------------
  // Topmost token

  /** Why the topmost-token lookup failed: the source throws 'Unexpected'. */
  datatype RowError = Unexpected

  /** `_getRowIndex`: the row just below the lowest empty cell, the top row
      when the column is full, and a failure when the bottom cell is empty. */
  function RowIndex(col: seq<Cell>): (r: Result<nat, RowError>)
    requires |col| == RowsCount
    ensures r.Failure? <==> col[0].None?
    ensures r.Success? ==> r.value < |col| && col[r.value].Some?
    ensures r.Success? ==> r.value + 1 == |col| || col[r.value + 1].None?
    ensures r.Success? ==> forall j | 0 <= j <= r.value :: col[j].Some?
  {
    match FirstEmpty(col)
    case None => Success(|col| - 1)
    case Some(k) => if k == 0 then Failure(Unexpected) else Success(k - 1)
  }

  /** On a column that obeys gravity the lookup fails exactly when the column
      is empty and otherwise names the row of the highest token: 5 when full. */
  lemma RowIndexStacked(col: seq<Cell>)
    requires |col| == RowsCount && Stacked(col)
    ensures RowIndex(col).Failure? <==> TokenCount(col) == 0
    ensures TokenCount(col) > 0 ==> RowIndex(col) == Success(TokenCount(col) - 1)
    ensures Full(col) ==> RowIndex(col) == Success(RowsCount - 1)
  {
    StackedFirstEmpty(col);
    if TokenCount(col) == 0 {
      assert col[0].None?;
    }
  }

  // ---------------------------------------------------------------------------
  // Moves

  /** `_getAnotherPlayer`: 'y' maps to 'r', every other character to 'y'. */
  function Another(p: char): (q: char)
    ensures q == 'y' || q == 'r'
    ensures q == 'r' <==> p == 'y'
    ensures q != p
  {
    if p == 'y' then 'r' else 'y'
  }

  /** On the two real tokens the mapping swaps them. */
  lemma AnotherSwaps(p: char)
    requires p == 'y' || p == 'r'
    ensures Another(p) != p && Another(Another(p)) == p
  {
  }

  /** Drops token `p` into column `c` of `s` (`_getNextStepFieldOrNull` on a
      copy): None when the column is full, otherwise the same cells and
      `_player` with the lowest empty cell of column `c` now holding `p`. */
  function Play(s: Snapshot, p: char, c: int): (r: Option<Snapshot>)
    requires s.Valid() && 0 <= c < ColumnsCount
    ensures r.None? <==> Full(s.columns[c])
    ensures r.Some? ==> r.value.Valid() && r.value.player == s.player
    ensures r.Some? ==> EmptyCount(r.value.columns) + 1 == EmptyCount(s.columns)
    ensures r.Some? ==> forall i | 0 <= i < ColumnsCount && i != c :: r.value.columns[i] == s.columns[i]
    ensures r.Some? ==> TokenCount(r.value.columns[c]) == TokenCount(s.columns[c]) + 1
    ensures r.Some? ==> r.value.columns[c][0].Some?
  {
    var col := s.columns[c];
    match FirstEmpty(col)
    case None => None
    case Some(row) =>
      var col' := col[row := Some(p)];
      TokenCountSet(col, row, Some(p));
      EmptyCountUpdate(s.columns, c, col');
      assert row > 0 ==> col'[0] == col[0];
      Some(Snapshot(s.columns[c := col'], s.player))
  }

  /** The token lands in the lowest empty cell, and only that cell changes. */
  lemma PlayLowestEmpty(s: Snapshot, p: char, c: int)
    requires s.Valid() && 0 <= c < ColumnsCount && !Full(s.columns[c])
    ensures Play(s, p, c).Some?
    ensures var row := FirstEmpty(s.columns[c]).value;
      var col := Play(s, p, c).value.columns[c];
      col[row] == Some(p) && forall j | 0 <= j < RowsCount && j != row :: col[j] == s.columns[c][j]
  {
  }

  /** With gravity the token lands on top of the column, gravity still holds,
      and the topmost-token lookup then finds exactly the row just written. */
  lemma PlayStacked(s: Snapshot, p: char, c: int)
    requires s.Valid() && 0 <= c < ColumnsCount && AllStacked(s.columns)
    requires !Full(s.columns[c])
    ensures Play(s, p, c).Some?
    ensures var s' := Play(s, p, c).value;
      && s'.columns[c][TokenCount(s.columns[c])] == Some(p)
      && AllStacked(s'.columns)
      && RowIndex(s'.columns[c]) == Success(TokenCount(s.columns[c]))
  {
    var col := s.columns[c];
    StackedFirstEmpty(col);
    var s' := Play(s, p, c).value;
    var col' := s'.columns[c];
    assert Stacked(col');
    RowIndexStacked(col');
  }
}
