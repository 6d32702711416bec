/** The mutable `Field` object: a 7 x 6 matrix of cells updated in place by
    `fill` and `_doStep`, and the field's methods as the loops they run. Each
    method is proved against the value-level definition it implements, so
    every property proved about those definitions holds of the object. */
module FieldObject {
  import opened Wrappers
  import opened Board
  import opened Notation
  import opened Win
  import opened Threat
  import Search

  class Field {
    /** `columns[i][j]`: column i, row j (row 0 at the bottom). */
    const columns: array2<Cell>
    /** `_player`: the player the searches take the side of. */
    var player: Option<char>

    ghost predicate Valid() {
      columns.Length0 == ColumnsCount && columns.Length1 == RowsCount
    }

    /** The cells as a value. */
    function Grid(): (g: seq<seq<Cell>>)
      reads columns
      requires Valid()
      ensures Shaped(g)
      ensures forall i, j | InBounds(i, j) :: g[i][j] == columns[i, j]
    {
      var a := columns;
      seq(ColumnsCount, i requires 0 <= i < a.Length0 reads a =>
        seq(RowsCount, j requires 0 <= j < a.Length1 reads a => a[i, j]))
    }

    /** The whole state as a value. */
    function Snapshot(): (s: Board.Snapshot)
      reads this, columns
      requires Valid()
      ensures s.Valid() && s.columns == Grid() && s.player == player
    {
      Board.Snapshot(Grid(), player)
    }

    /** `new Field(field)`: an empty matrix with `_player` undefined, or a
        cell-by-cell copy of `field` together with its `_player`. */
    constructor (field: Field?)
      requires field != null ==> field.Valid()
      ensures Valid() && fresh(columns)
      ensures field == null ==> Grid() == EmptyGrid() && player == None
      ensures field != null ==> Grid() == field.Grid() && player == field.player
    {
      columns := new Cell[ColumnsCount, RowsCount]((i, j) => None);
      player := None;
      new;
      if field != null {
        var i := 0;
        while i < ColumnsCount
          invariant 0 <= i <= ColumnsCount
          invariant forall x, y | InBounds(x, y) ::
            columns[x, y] == if x < i then field.columns[x, y] else None
        {
          var j := 0;
          while j < RowsCount
            invariant 0 <= j <= RowsCount
            invariant forall x, y | InBounds(x, y) ::
              columns[x, y] == if x < i || (x == i && y < j) then field.columns[x, y] else None
          {
            columns[i, j] := field.columns[i, j];
            j := j + 1;
          }
          i := i + 1;
        }
        GridExtensionality(Grid(), field.Grid());
        player := field.player;
      } else {
        GridExtensionality(Grid(), EmptyGrid());
      }
    }

    /** `fill(cells, player)`: piece i of the text split at ',' (at most 7
        pieces) writes its characters (at most 6) into column i from the
        bottom; cells it does not reach keep their content. */
    method Fill(cells: string, p: Option<char>)
      requires Valid()
      modifies this, columns
      ensures Grid() == Filled(old(Grid()), Split(cells))
      ensures player == p
    {
      ghost var g0 := Grid();
      var segments := Split(cells);
      var i := 0;
      while i < |segments| && i < ColumnsCount
        invariant 0 <= i <= ColumnsCount && i <= |segments|
        invariant forall x, y | InBounds(x, y) ::
          columns[x, y] == if x < i && y < |segments[x]| then Some(segments[x][y]) else g0[x][y]
      {
        var column := segments[i];
        var j := 0;
        while j < |column| && j < RowsCount
          invariant 0 <= j <= RowsCount && j <= |column|
          invariant forall x, y | InBounds(x, y) ::
            columns[x, y] ==
              if (x < i && y < |segments[x]|) || (x == i && y < j) then Some(segments[x][y]) else g0[x][y]
        {
          columns[i, j] := Some(column[j]);
          j := j + 1;
        }
        i := i + 1;
      }
      GridExtensionality(Grid(), Filled(g0, segments));
      player := p;
    }

    /** `findIndex` with the test `typeof cell !== 'string'` on column c: the
        lowest empty row, -1 when the column is full. */
    method FindEmpty(c: int) returns (index: int)
      requires Valid() && 0 <= c < ColumnsCount
      ensures index == match FirstEmpty(Grid()[c]) case None => -1 case Some(k) => k
    {
      index := 0;
      while index < RowsCount && columns[c, index].Some?
        invariant 0 <= index <= RowsCount
        invariant forall y | 0 <= y < index :: columns[c, y].Some?
      {
        index := index + 1;
      }
      if index == RowsCount {
        index := -1;
      }
    }

    /** `_doStep(player, columnIndex)`: drops the token into the lowest empty
        cell of the column; false, with nothing changed, when it is full. */
    method DoStep(p: char, c: int) returns (ok: bool)
      requires Valid() && 0 <= c < ColumnsCount
      modifies columns
      ensures ok <==> !Full(old(Grid())[c])
      ensures ok ==> Grid() == Play(old(Snapshot()), p, c).value.columns
      ensures !ok ==> Grid() == old(Grid())
    {
      ghost var s0 := Snapshot();
      var row := FindEmpty(c);
      if row < 0 {
        return false;
      }
      columns[c, row] := Some(p);
      var expected := Play(s0, p, c).value.columns;
      GridExtensionality(Grid(), expected);
      return true;
    }

    /** `_getNextStepFieldOrNull(player, columnIndex)`: a fresh copy with the
        step done, or null when the column is full; this field is untouched. */
    method NextStepFieldOrNull(p: char, c: int) returns (f: Field?)
      requires Valid() && 0 <= c < ColumnsCount
      ensures f == null <==> Full(Grid()[c])
      ensures f != null ==> fresh(f) && fresh(f.columns) && f.Valid()
      ensures f != null ==> Play(Snapshot(), p, c) == Some(f.Snapshot())
    {
      f := new Field(this);
      var ok := f.DoStep(p, c);
      if !ok {
        f := null;
      }
    }

    // -------------------------------------------------------------------------
    // Four in a row

    /** `_hasDirectionWon(player, ...)`: the two nested `some` over the sliced
        start columns and rows, and the inner loop over the four cells. The
        source adds the raw begin arguments back to the slice positions, which
        agrees with the sliced start only for begins that are not negative, as
        in every entry of the scan table. */
    method HasDirectionWon(p: char, s: Scan) returns (won: bool)
      requires Valid() && ScanSafe(s) && s.columnsBegin >= 0 && s.rowsBegin >= 0
      ensures won == DirectionWon(Grid(), p, s)
    {
      var columnsBegin := SliceIndex(s.columnsBegin, ColumnsCount);
      var columnsEnd := SliceIndex(s.columnsEnd, ColumnsCount);
      var rowsBegin := SliceIndex(s.rowsBegin, RowsCount);
      var rowsEnd := SliceIndex(s.rowsEnd, RowsCount);
      won := false;
      var i := columnsBegin;
      while i < columnsEnd && !won
        invariant columnsBegin <= i <= ColumnsCount
        invariant won ==> DirectionWon(Grid(), p, s)
        invariant !won ==> forall x, y | x < i && Starts(s, x, y) :: !Window(Grid(), p, x, y, s.dc, s.dr)
      {
        var j := rowsBegin;
        while j < rowsEnd && !won
          invariant rowsBegin <= j <= RowsCount
          invariant won ==> DirectionWon(Grid(), p, s)
          invariant !won ==> forall x, y | (x < i || (x == i && y < j)) && Starts(s, x, y) ::
            !Window(Grid(), p, x, y, s.dc, s.dr)
        {
          assert Starts(s, i, j);
          var k := 0;
          var all := true;
          while k < TargetLength && all
            invariant 0 <= k <= TargetLength
            invariant all <==> forall t | 0 <= t < k :: Grid()[Along(i, s.dc, t)][Along(j, s.dr, t)] == Some(p)
          {
            if columns[Along(i, s.dc, k), Along(j, s.dr, k)] != Some(p) {
              all := false;
            }
            k := k + 1;
          }
          won := all;
          j := j + 1;
        }
        i := i + 1;
      }
    }

    /** `_hasWon(player)`: some entry of the scan table finds a four. */
    method HasWon(p: char) returns (won: bool)
      requires Valid()
      ensures won == Won(Grid(), p)
    {
      ScansSafe();
      won := false;
      var d := 0;
      while d < |Scans| && !won
        invariant 0 <= d <= |Scans|
        invariant won <==> exists e | 0 <= e < d :: DirectionWon(Grid(), p, Scans[e])
      {
        won := HasDirectionWon(p, Scans[d]);
        d := d + 1;
      }
    }

    // -------------------------------------------------------------------------
    // Probable wins

    /** `_getRowIndex(columnIndex)`: the row of the topmost token, the top row
        when the column is full, and the 'Unexpected' failure when it is
        empty. */
    method GetRowIndex(c: int) returns (r: Result<nat, RowError>)
      requires Valid() && 0 <= c < ColumnsCount
      ensures r == RowIndex(Grid()[c])
    {
      var index := FindEmpty(c);
      if index < 0 {
        r := Success(RowsCount - 1);
      } else if index == 0 {
        r := Failure(Unexpected);
      } else {
        r := Success(index - 1);
      }
    }

    /** `_getDirectionProbableWinsCount`: the two `for` loops walking away
        from (c, r) along (dc, dr) and back, and the score
        max(0, positiveOffset - negativeOffset - 4). */
    method DirectionProbableWinsCount(p: char, c: int, r: int, dc: int, dr: int) returns (n: nat)
      requires Valid() && UnitStep(dc, dr)
      ensures n == AxisScore(Grid(), p, c, r, dc, dr)
    {
      var positiveOffset := 1;
      while positiveOffset < TargetLength
        invariant 1 <= positiveOffset <= TargetLength
        invariant forall t | 1 <= t < positiveOffset :: OpenAt(Grid(), p, c, r, dc, dr, t)
      {
        var x := Along(c, dc, positiveOffset);
        var y := Along(r, dr, positiveOffset);
        if !InBounds(x, y) || !(columns[x, y] == Some(p) || columns[x, y].None?) {
          break;
        }
        positiveOffset := positiveOffset + 1;
      }
      ReachStops(Grid(), p, c, r, dc, dr, 1, positiveOffset);

      var negativeOffset := -1;
      while negativeOffset > -(TargetLength as int)
        invariant -(TargetLength as int) <= negativeOffset <= -1
        invariant forall t | negativeOffset < t <= -1 :: OpenAt(Grid(), p, c, r, dc, dr, t)
      {
        var x := Along(c, dc, negativeOffset);
        var y := Along(r, dr, negativeOffset);
        if !InBounds(x, y) || !(columns[x, y] == Some(p) || columns[x, y].None?) {
          break;
        }
        negativeOffset := negativeOffset - 1;
      }
      BackwardStops(Grid(), p, c, r, dc, dr, negativeOffset);

      var score := positiveOffset - negativeOffset - TargetLength;
      n := if score < 0 then 0 else score;
    }

    /** `_getProbableWinsCount(player, columnIndex)`: the four axis scores
        through the topmost token of the column; the 'Unexpected' failure of
        the row lookup propagates. */
    method ProbableWinsCount(p: char, c: int) returns (r: Result<nat, RowError>)
      requires Valid() && 0 <= c < ColumnsCount
      ensures r == ProbableWins(Grid(), p, c)
    {
      var row := GetRowIndex(c);
      if row.Failure? {
        return Failure(row.error);
      }
      var total := AxesCount(p, c, row.value);
      r := Success(total);
    }

    /** The sum in `_getProbableWinsCount` once the row is known. */
    method AxesCount(p: char, c: int, row: int) returns (n: nat)
      requires Valid()
      ensures n == AxesScore(Grid(), p, c, row)
    {
      var horizontal := DirectionProbableWinsCount(p, c, row, 1, 0);
      var vertical := DirectionProbableWinsCount(p, c, row, 0, 1);
      var rising := DirectionProbableWinsCount(p, c, row, 1, 1);
      var falling := DirectionProbableWinsCount(p, c, row, 1, -1);
      n := horizontal + vertical + rising + falling;
    }

    // -------------------------------------------------------------------------
    // Searches

    /** `isSuccessful(player, columnIndex)`, recursing through fresh copies. */
    method IsSuccessful(p: char, c: int) returns (ok: bool)
      requires Valid() && 0 <= c < ColumnsCount
      ensures ok == Search.IsSuccessful(Snapshot(), p, c)
      decreases EmptyCount(Grid()), 0
    {
      ghost var s0 := Snapshot();
      var field := NextStepFieldOrNull(p, c);
      if field == null {
        return false;
      }
      ghost var next := field.Snapshot();
      var won := field.HasWon(p);
      if won {
        return player == Some(p);
      }
      var anotherPlayer := Another(p);
      if player == Some(p) {
        ok := field.SomeSuccessful(anotherPlayer);
      } else {
        ok := field.EverySuccessful(anotherPlayer);
      }
      assert field.Snapshot() == next;
      assert Snapshot() == s0;
    }

    /** `columnsIndexes.some(isColumnIndexSuccessful)`: stops at the first
        successful column. */
    method SomeSuccessful(p: char) returns (ok: bool)
      requires Valid()
      ensures ok == Search.SomeSuccessful(Snapshot(), p)
      decreases EmptyCount(Grid()), 1
    {
      ghost var s0 := Snapshot();
      ok := false;
      var k := 0;
      while k < ColumnsCount && !ok
        invariant 0 <= k <= ColumnsCount && Snapshot() == s0
        invariant ok <==> exists e | 0 <= e < k :: Search.IsSuccessful(s0, p, e)
      {
        ok := IsSuccessful(p, k);
        k := k + 1;
      }
      if ok {
        ghost var e :| 0 <= e < k && Search.IsSuccessful(s0, p, e);
        assert Search.SomeSuccessful(s0, p);
      } else {
        assert forall e | 0 <= e < ColumnsCount :: !Search.IsSuccessful(s0, p, e);
      }
      assert Snapshot() == s0;
    }

    /** `columnsIndexes.every(isColumnIndexSuccessful)`: stops at the first
        column that is not successful. */
    method EverySuccessful(p: char) returns (ok: bool)
      requires Valid()
      ensures ok == Search.EverySuccessful(Snapshot(), p)
      decreases EmptyCount(Grid()), 1
    {
      ghost var s0 := Snapshot();
      ok := true;
      var k := 0;
      while k < ColumnsCount && ok
        invariant 0 <= k <= ColumnsCount && Snapshot() == s0
        invariant ok <==> forall e | 0 <= e < k :: Search.IsSuccessful(s0, p, e)
      {
        ok := IsSuccessful(p, k);
        k := k + 1;
      }
      if !ok {
        ghost var e :| 0 <= e < k && !Search.IsSuccessful(s0, p, e);
        assert !Search.EverySuccessful(s0, p);
      } else {
        assert forall e | 0 <= e < ColumnsCount :: Search.IsSuccessful(s0, p, e);
      }
      assert Snapshot() == s0;
    }

    /** `_getStepAnalysis(player, columnIndex, depth)`, recursing through
        fresh copies; null when the column is full. */
    method GetStepAnalysisAt(p: char, c: int, depth: int) returns (r: Option<Search.Analysis>)
      requires Valid() && 0 <= c < ColumnsCount
      ensures r == Search.StepAnalysis(Snapshot(), p, c, depth)
      decreases depth, 0
    {
      var field := NextStepFieldOrNull(p, c);
      if field == null {
        return None;
      }
      var won := field.HasWon(p);
      if won {
        return Some(Search.Analysis(Some(p), None, None));
      }
      var count := field.ProbableWinsCount(p, c);
      var d := depth - 1;
      if d <= 0 {
        return Some(Search.Analysis(None, Some(count.value), None));
      }
      var anotherPlayer := Another(p);
      var analyticses := field.ReplyAnalyses(anotherPlayer, d);
      var counts := seq(ColumnsCount, k requires 0 <= k < ColumnsCount => Search.ProbableOf(analyticses[k]));
      Search.StepAnalysisChildren(Snapshot(), p, c, depth, field.Snapshot(), analyticses);
      return Some(Search.Analysis(Search.Verdict(analyticses, p, anotherPlayer), Some(count.value), Search.MaxDefined(counts)));
    }

    /** `this.columns.map(... field._getStepAnalysis(anotherPlayer, columnIndex,
        depth))`: the analyses of the seven replies. */
    method ReplyAnalyses(p: char, depth: int) returns (r: seq<Option<Search.Analysis>>)
      requires Valid()
      ensures |r| == ColumnsCount
      ensures forall k | 0 <= k < ColumnsCount :: r[k] == Search.StepAnalysis(Snapshot(), p, k, depth)
      decreases depth, 1
    {
      ghost var s0 := Snapshot();
      r := [];
      var k := 0;
      while k < ColumnsCount
        invariant 0 <= k <= ColumnsCount && |r| == k && Snapshot() == s0
        invariant forall e | 0 <= e < k :: r[e] == Search.StepAnalysis(s0, p, e, depth)
      {
        var a := GetStepAnalysisAt(p, k, depth);
        r := r + [a];
        k := k + 1;
      }
    }

    /** `getStepAnalysis(player)`: every column analysed at depth 6 and
        tagged with its index. */
    method GetStepAnalysis(p: char) returns (r: seq<Option<Search.ColumnAnalysis>>)
      requires Valid()
      ensures r == Search.GetStepAnalysis(Snapshot(), p)
    {
      r := [];
      var c := 0;
      while c < ColumnsCount
        invariant 0 <= c <= ColumnsCount && |r| == c
        invariant forall e | 0 <= e < c :: r[e] == Search.GetStepAnalysis(Snapshot(), p)[e]
      {
        var analytics := GetStepAnalysisAt(p, c, 6);
        r := r + [if analytics.Some? then Some(Search.ColumnAnalysis(c, analytics.value)) else None];
        c := c + 1;
      }
    }
  }
}
