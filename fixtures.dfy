/** The fixtures of the repository's test file (spec/field.spec.js), stated
    as lemmas about the model: each position is given in the notation that
    `fill` reads. A fixture is proved first for any grid whose cells are the
    pieces of the notation, then for the grid that `fill` builds from the
    text itself. */
module Fixtures {
  import opened Wrappers
  import opened Board
  import opened Notation
  import opened Win
  import opened Threat

  /** The cells of `g` are exactly the characters of the pieces, column by
      column from the bottom; all other cells are empty. */
  ghost predicate Holds(g: seq<seq<Cell>>, pieces: seq<string>)
    requires Shaped(g)
  {
    forall i, j | InBounds(i, j) :: g[i][j] == if i < |pieces| && j < |pieces[i]| then Some(pieces[i][j]) else None
  }

  /** `fill` on a fresh field puts the pieces of the notation in place. */
  lemma NotationHolds(pieces: seq<string>)
    requires |pieces| >= 1 && forall k | 0 <= k < |pieces| :: Delimiter !in pieces[k]
    ensures Holds(FromNotation(Join(pieces)), pieces)
  {
    SplitJoin(pieces);
  }

  /** The four cells of a window of `p`, one by one. */
  lemma WindowCells(g: seq<seq<Cell>>, p: char, i: int, j: int, dc: int, dr: int)
    requires Shaped(g) && UnitStep(dc, dr) && WindowInBounds(i, j, dc, dr) && Window(g, p, i, j, dc, dr)
    ensures InBounds(Along(i, dc, 0), Along(j, dr, 0)) && g[Along(i, dc, 0)][Along(j, dr, 0)] == Some(p)
    ensures InBounds(Along(i, dc, 1), Along(j, dr, 1)) && g[Along(i, dc, 1)][Along(j, dr, 1)] == Some(p)
    ensures InBounds(Along(i, dc, 2), Along(j, dr, 2)) && g[Along(i, dc, 2)][Along(j, dr, 2)] == Some(p)
    ensures InBounds(Along(i, dc, 3), Along(j, dr, 3)) && g[Along(i, dc, 3)][Along(j, dr, 3)] == Some(p)
  {
  }

  // ---------------------------------------------------------------------------
  // `fill`

  /** `fill(',,yrrry,yyyyyy,rrrr')` on a fresh field. */
  lemma FillsColumnsOn(g: seq<seq<Cell>>)
    requires Shaped(g) && Holds(g, ["", "", "yrrry", "yyyyyy", "rrrr"])
    ensures g == [
      [None, None, None, None, None, None],
      [None, None, None, None, None, None],
      [Some('y'), Some('r'), Some('r'), Some('r'), Some('y'), None],
      [Some('y'), Some('y'), Some('y'), Some('y'), Some('y'), Some('y')],
      [Some('r'), Some('r'), Some('r'), Some('r'), None, None],
      [None, None, None, None, None, None],
      [None, None, None, None, None, None]]
  {
    GridExtensionality(g, [
      [None, None, None, None, None, None],
      [None, None, None, None, None, None],
      [Some('y'), Some('r'), Some('r'), Some('r'), Some('y'), None],
      [Some('y'), Some('y'), Some('y'), Some('y'), Some('y'), Some('y')],
      [Some('r'), Some('r'), Some('r'), Some('r'), None, None],
      [None, None, None, None, None, None],
      [None, None, None, None, None, None]]);
  }

  lemma FillsColumns()
    ensures FromNotation(",,yrrry,yyyyyy,rrrr") == [
      [None, None, None, None, None, None],
      [None, None, None, None, None, None],
      [Some('y'), Some('r'), Some('r'), Some('r'), Some('y'), None],
      [Some('y'), Some('y'), Some('y'), Some('y'), Some('y'), Some('y')],
      [Some('r'), Some('r'), Some('r'), Some('r'), None, None],
      [None, None, None, None, None, None],
      [None, None, None, None, None, None]]
  {
    assert Join(["", "", "yrrry", "yyyyyy", "rrrr"]) == ",,yrrry,yyyyyy,rrrr";
    NotationHolds(["", "", "yrrry", "yyyyyy", "rrrr"]);
    FillsColumnsOn(FromNotation(",,yrrry,yyyyyy,rrrr"));
  }

  // ---------------------------------------------------------------------------
  // `_hasWon`

  /** Three tokens in a row of either colour are not a win. */
  lemma NoFalsePositivesOn(g: seq<seq<Cell>>)
    requires Shaped(g) && Holds(g, ["ryyy", "r", "r"])
    ensures !Won(g, 'r')
    ensures !Won(g, 'y')
  {
    ScansSafe();
    forall d, i, j | 0 <= d < |Scans| && Starts(Scans[d], i, j) && Window(g, 'r', i, j, Scans[d].dc, Scans[d].dr)
      ensures false
    {
      WindowCells(g, 'r', i, j, Scans[d].dc, Scans[d].dr);
    }
    forall d, i, j | 0 <= d < |Scans| && Starts(Scans[d], i, j) && Window(g, 'y', i, j, Scans[d].dc, Scans[d].dr)
      ensures false
    {
      WindowCells(g, 'y', i, j, Scans[d].dc, Scans[d].dr);
    }
  }

  lemma NoFalsePositives()
    ensures !Won(FromNotation("ryyy,r,r"), 'r')
    ensures !Won(FromNotation("ryyy,r,r"), 'y')
  {
    assert Join(["ryyy", "r", "r"]) == "ryyy,r,r";
    NotationHolds(["ryyy", "r", "r"]);
    NoFalsePositivesOn(FromNotation("ryyy,r,r"));
  }

  /** A column of four is a vertical win. */
  lemma VerticalWinOn(g: seq<seq<Cell>>)
    requires Shaped(g) && Holds(g, ["yyyy"])
    ensures !Won(g, 'r')
    ensures Won(g, 'y')
  {
    ScansSafe();
    forall d, i, j | 0 <= d < |Scans| && Starts(Scans[d], i, j) && Window(g, 'r', i, j, Scans[d].dc, Scans[d].dr)
      ensures false
    {
      WindowCells(g, 'r', i, j, Scans[d].dc, Scans[d].dr);
    }
    assert Starts(Scans[1], 0, 0) && Window(g, 'y', 0, 0, Scans[1].dc, Scans[1].dr);
  }

  lemma VerticalWin()
    ensures !Won(FromNotation("yyyy"), 'r')
    ensures Won(FromNotation("yyyy"), 'y')
  {
    assert Join(["yyyy"]) == "yyyy";
    NotationHolds(["yyyy"]);
    VerticalWinOn(FromNotation("yyyy"));
  }

  /** A second `fill('rrrr')` on the same field overwrites the four tokens. */
  lemma VerticalWinRefilledOn(g: seq<seq<Cell>>)
    requires Shaped(g) && Holds(g, ["rrrr"])
    ensures Won(g, 'r') && !Won(g, 'y')
  {
    ScansSafe();
    assert Starts(Scans[1], 0, 0) && Window(g, 'r', 0, 0, Scans[1].dc, Scans[1].dr);
    forall d, i, j | 0 <= d < |Scans| && Starts(Scans[d], i, j) && Window(g, 'y', i, j, Scans[d].dc, Scans[d].dr)
      ensures false
    {
      WindowCells(g, 'y', i, j, Scans[d].dc, Scans[d].dr);
    }
  }

  lemma VerticalWinRefilled()
    ensures Won(Filled(FromNotation("yyyy"), Split("rrrr")), 'r')
    ensures !Won(Filled(FromNotation("yyyy"), Split("rrrr")), 'y')
  {
    assert Join(["yyyy"]) == "yyyy";
    NotationHolds(["yyyy"]);
    assert Join(["rrrr"]) == "rrrr";
    SplitJoin(["rrrr"]);
    var g := Filled(FromNotation("yyyy"), Split("rrrr"));
    assert Holds(g, ["rrrr"]);
    VerticalWinRefilledOn(g);
  }

  /** Four in the bottom row from the left edge. */
  lemma HorizontalWinOnTheLeftOn(g: seq<seq<Cell>>)
    requires Shaped(g) && Holds(g, ["y", "y", "y", "y"])
    ensures !Won(g, 'r')
    ensures Won(g, 'y')
  {
    ScansSafe();
    forall d, i, j | 0 <= d < |Scans| && Starts(Scans[d], i, j) && Window(g, 'r', i, j, Scans[d].dc, Scans[d].dr)
      ensures false
    {
      WindowCells(g, 'r', i, j, Scans[d].dc, Scans[d].dr);
    }
    assert Starts(Scans[0], 0, 0) && Window(g, 'y', 0, 0, Scans[0].dc, Scans[0].dr);
  }

  lemma HorizontalWinOnTheLeft()
    ensures !Won(FromNotation("y,y,y,y"), 'r')
    ensures Won(FromNotation("y,y,y,y"), 'y')
  {
    assert Join(["y", "y", "y", "y"]) == "y,y,y,y";
    NotationHolds(["y", "y", "y", "y"]);
    HorizontalWinOnTheLeftOn(FromNotation("y,y,y,y"));
  }

  /** Four in the bottom row up to the right edge. */
  lemma HorizontalWinOnTheRightOn(g: seq<seq<Cell>>)
    requires Shaped(g) && Holds(g, ["", "", "", "r", "r", "r", "r"])
    ensures Won(g, 'r')
    ensures !Won(g, 'y')
  {
    ScansSafe();
    assert Starts(Scans[0], 3, 0) && Window(g, 'r', 3, 0, Scans[0].dc, Scans[0].dr);
    forall d, i, j | 0 <= d < |Scans| && Starts(Scans[d], i, j) && Window(g, 'y', i, j, Scans[d].dc, Scans[d].dr)
      ensures false
    {
      WindowCells(g, 'y', i, j, Scans[d].dc, Scans[d].dr);
    }
  }

  lemma HorizontalWinOnTheRight()
    ensures Won(FromNotation(",,,r,r,r,r"), 'r')
    ensures !Won(FromNotation(",,,r,r,r,r"), 'y')
  {
    assert Join(["", "", "", "r", "r", "r", "r"]) == ",,,r,r,r,r";
    NotationHolds(["", "", "", "r", "r", "r", "r"]);
    HorizontalWinOnTheRightOn(FromNotation(",,,r,r,r,r"));
  }

  /** Four on a rising diagonal. */
  lemma UpDiagonalWinOn(g: seq<seq<Cell>>)
    requires Shaped(g) && Holds(g, ["", "", "y", "ry", "rry", "rrry"])
    ensures !Won(g, 'r')
    ensures Won(g, 'y')
  {
    ScansSafe();
    forall d, i, j | 0 <= d < |Scans| && Starts(Scans[d], i, j) && Window(g, 'r', i, j, Scans[d].dc, Scans[d].dr)
      ensures false
    {
      WindowCells(g, 'r', i, j, Scans[d].dc, Scans[d].dr);
    }
    assert Starts(Scans[2], 2, 0) && Window(g, 'y', 2, 0, Scans[2].dc, Scans[2].dr);
  }

  lemma UpDiagonalWin()
    ensures !Won(FromNotation(",,y,ry,rry,rrry"), 'r')
    ensures Won(FromNotation(",,y,ry,rry,rrry"), 'y')
  {
    assert Join(["", "", "y", "ry", "rry", "rrry"]) == ",,y,ry,rry,rrry";
    NotationHolds(["", "", "y", "ry", "rry", "rrry"]);
    UpDiagonalWinOn(FromNotation(",,y,ry,rry,rrry"));
  }

  /** Four on a falling diagonal. */
  lemma DownDiagonalWinOn(g: seq<seq<Cell>>)
    requires Shaped(g) && Holds(g, ["", "", "rrry", "rry", "ry", "y"])
    ensures !Won(g, 'r')
    ensures Won(g, 'y')
  {
    ScansSafe();
    forall d, i, j | 0 <= d < |Scans| && Starts(Scans[d], i, j) && Window(g, 'r', i, j, Scans[d].dc, Scans[d].dr)
      ensures false
    {
      WindowCells(g, 'r', i, j, Scans[d].dc, Scans[d].dr);
    }
    assert Starts(Scans[3], 2, 3) && Window(g, 'y', 2, 3, Scans[3].dc, Scans[3].dr);
  }

  lemma DownDiagonalWin()
    ensures !Won(FromNotation(",,rrry,rry,ry,y"), 'r')
    ensures Won(FromNotation(",,rrry,rry,ry,y"), 'y')
  {
    assert Join(["", "", "rrry", "rry", "ry", "y"]) == ",,rrry,rry,ry,y";
    NotationHolds(["", "", "rrry", "rry", "ry", "y"]);
    DownDiagonalWinOn(FromNotation(",,rrry,rry,ry,y"));
  }

  // ---------------------------------------------------------------------------
  // `_getProbableWinsCount`

  /** A lone token in the corner column. */
  lemma ProbableWinsInColumn0On(g: seq<seq<Cell>>)
    requires Shaped(g) && Holds(g, ["y"])
    ensures ProbableWins(g, 'y', 0) == Success(3)
  {
    assert RowIndex(g[0]) == Success(0);
  }

  lemma ProbableWinsInColumn0()
    ensures ProbableWins(FromNotation("y"), 'y', 0) == Success(3)
  {
    assert Join(["y"]) == "y";
    NotationHolds(["y"]);
    ProbableWinsInColumn0On(FromNotation("y"));
  }

  /** A lone token in column 1. */
  lemma ProbableWinsInColumn1On(g: seq<seq<Cell>>)
    requires Shaped(g) && Holds(g, ["", "r"])
    ensures ProbableWins(g, 'r', 1) == Success(4)
  {
    assert RowIndex(g[1]) == Success(0);
  }

  lemma ProbableWinsInColumn1()
    ensures ProbableWins(FromNotation(",r"), 'r', 1) == Success(4)
  {
    assert Join(["", "r"]) == ",r";
    NotationHolds(["", "r"]);
    ProbableWinsInColumn1On(FromNotation(",r"));
  }

  /** A lone token in column 2. */
  lemma ProbableWinsInColumn2On(g: seq<seq<Cell>>)
    requires Shaped(g) && Holds(g, ["", "", "y"])
    ensures ProbableWins(g, 'y', 2) == Success(5)
  {
    assert RowIndex(g[2]) == Success(0);
  }

  lemma ProbableWinsInColumn2()
    ensures ProbableWins(FromNotation(",,y"), 'y', 2) == Success(5)
  {
    assert Join(["", "", "y"]) == ",,y";
    NotationHolds(["", "", "y"]);
    ProbableWinsInColumn2On(FromNotation(",,y"));
  }

  /** The top of three tokens in the middle column. */
  lemma ProbableWinsAtPoint3And2On(g: seq<seq<Cell>>)
    requires Shaped(g) && Holds(g, ["", "", "", "rrr"])
    ensures ProbableWins(g, 'r', 3) == Success(13)
  {
    assert RowIndex(g[3]) == Success(2);
  }

  lemma ProbableWinsAtPoint3And2()
    ensures ProbableWins(FromNotation(",,,rrr"), 'r', 3) == Success(13)
  {
    assert Join(["", "", "", "rrr"]) == ",,,rrr";
    NotationHolds(["", "", "", "rrr"]);
    ProbableWinsAtPoint3And2On(FromNotation(",,,rrr"));
  }

  /** The top of four tokens in the middle column. */
  lemma ProbableWinsAtPoint3And3On(g: seq<seq<Cell>>)
    requires Shaped(g) && Holds(g, ["", "", "", "rrrr"])
    ensures ProbableWins(g, 'r', 3) == Success(13)
  {
    assert RowIndex(g[3]) == Success(3);
  }

  lemma ProbableWinsAtPoint3And3()
    ensures ProbableWins(FromNotation(",,,rrrr"), 'r', 3) == Success(13)
  {
    assert Join(["", "", "", "rrrr"]) == ",,,rrrr";
    NotationHolds(["", "", "", "rrrr"]);
    ProbableWinsAtPoint3And3On(FromNotation(",,,rrrr"));
  }

  /** The top of a full corner column. */
  lemma ProbableWinsAtPoint6And5On(g: seq<seq<Cell>>)
    requires Shaped(g) && Holds(g, ["", "", "", "", "", "", "rrrrrr"])
    ensures ProbableWins(g, 'r', 6) == Success(3)
  {
    assert RowIndex(g[6]) == Success(5);
  }

  lemma ProbableWinsAtPoint6And5()
    ensures ProbableWins(FromNotation(",,,,,,rrrrrr"), 'r', 6) == Success(3)
  {
    assert Join(["", "", "", "", "", "", "rrrrrr"]) == ",,,,,,rrrrrr";
    NotationHolds(["", "", "", "", "", "", "rrrrrr"]);
    ProbableWinsAtPoint6And5On(FromNotation(",,,,,,rrrrrr"));
  }

  /** A foreign token to the right closes windows. */
  lemma ForeignCellHorizontallyOnTheRightOn(g: seq<seq<Cell>>)
    requires Shaped(g) && Holds(g, ["y", "", "", "r"])
    ensures ProbableWins(g, 'y', 0) == Success(2)
  {
    assert RowIndex(g[0]) == Success(0);
  }

  lemma ForeignCellHorizontallyOnTheRight()
    ensures ProbableWins(FromNotation("y,,,r"), 'y', 0) == Success(2)
  {
    assert Join(["y", "", "", "r"]) == "y,,,r";
    NotationHolds(["y", "", "", "r"]);
    ForeignCellHorizontallyOnTheRightOn(FromNotation("y,,,r"));
  }

  /** A foreign token to the left closes windows. */
  lemma ForeignCellHorizontallyOnTheLeftOn(g: seq<seq<Cell>>)
    requires Shaped(g) && Holds(g, ["", "", "", "r", "", "", "y"])
    ensures ProbableWins(g, 'y', 6) == Success(2)
  {
    assert RowIndex(g[6]) == Success(0);
  }

  lemma ForeignCellHorizontallyOnTheLeft()
    ensures ProbableWins(FromNotation(",,,r,,,y"), 'y', 6) == Success(2)
  {
    assert Join(["", "", "", "r", "", "", "y"]) == ",,,r,,,y";
    NotationHolds(["", "", "", "r", "", "", "y"]);
    ForeignCellHorizontallyOnTheLeftOn(FromNotation(",,,r,,,y"));
  }

  /** Foreign tokens below close windows. */
  lemma ForeignCellVerticallyOnTheBottomOn(g: seq<seq<Cell>>)
    requires Shaped(g) && Holds(g, ["yyyrrr"])
    ensures ProbableWins(g, 'r', 0) == Success(2)
  {
    assert RowIndex(g[0]) == Success(5);
  }

  lemma ForeignCellVerticallyOnTheBottom()
    ensures ProbableWins(FromNotation("yyyrrr"), 'r', 0) == Success(2)
  {
    assert Join(["yyyrrr"]) == "yyyrrr";
    NotationHolds(["yyyrrr"]);
    ForeignCellVerticallyOnTheBottomOn(FromNotation("yyyrrr"));
  }

  /** A foreign token up the rising diagonal. */
  lemma ForeignCellUpDiagonallyOnTheRightOn(g: seq<seq<Cell>>)
    requires Shaped(g) && Holds(g, ["y", "", "", "yyyr"])
    ensures ProbableWins(g, 'y', 0) == Success(2)
  {
    assert RowIndex(g[0]) == Success(0);
  }

  lemma ForeignCellUpDiagonallyOnTheRight()
    ensures ProbableWins(FromNotation("y,,,yyyr"), 'y', 0) == Success(2)
  {
    assert Join(["y", "", "", "yyyr"]) == "y,,,yyyr";
    NotationHolds(["y", "", "", "yyyr"]);
    ForeignCellUpDiagonallyOnTheRightOn(FromNotation("y,,,yyyr"));
  }

  /** A foreign token down the rising diagonal. */
  lemma ForeignCellUpDiagonallyOnTheLeftOn(g: seq<seq<Cell>>)
    requires Shaped(g) && Holds(g, ["", "", "", "yyy", "", "", "rrrrrr"])
    ensures ProbableWins(g, 'r', 6) == Success(2)
  {
    assert RowIndex(g[6]) == Success(5);
  }

  lemma ForeignCellUpDiagonallyOnTheLeft()
    ensures ProbableWins(FromNotation(",,,yyy,,,rrrrrr"), 'r', 6) == Success(2)
  {
    assert Join(["", "", "", "yyy", "", "", "rrrrrr"]) == ",,,yyy,,,rrrrrr";
    NotationHolds(["", "", "", "yyy", "", "", "rrrrrr"]);
    ForeignCellUpDiagonallyOnTheLeftOn(FromNotation(",,,yyy,,,rrrrrr"));
  }

  /** A foreign token down the falling diagonal. */
  lemma ForeignCellDownDiagonallyOnTheRightOn(g: seq<seq<Cell>>)
    requires Shaped(g) && Holds(g, ["yyyyyy", "", "", "yyr"])
    ensures ProbableWins(g, 'y', 0) == Success(2)
  {
    assert RowIndex(g[0]) == Success(5);
  }

  lemma ForeignCellDownDiagonallyOnTheRight()
    ensures ProbableWins(FromNotation("yyyyyy,,,yyr"), 'y', 0) == Success(2)
  {
    assert Join(["yyyyyy", "", "", "yyr"]) == "yyyyyy,,,yyr";
    NotationHolds(["yyyyyy", "", "", "yyr"]);
    ForeignCellDownDiagonallyOnTheRightOn(FromNotation("yyyyyy,,,yyr"));
  }

  /** A foreign token up the falling diagonal. */
  lemma ForeignCellDownDiagonallyOnTheLeftOn(g: seq<seq<Cell>>)
    requires Shaped(g) && Holds(g, ["", "", "", "rrry", "", "", "r"])
    ensures ProbableWins(g, 'r', 6) == Success(2)
  {
    assert RowIndex(g[6]) == Success(0);
  }

  lemma ForeignCellDownDiagonallyOnTheLeft()
    ensures ProbableWins(FromNotation(",,,rrry,,,r"), 'r', 6) == Success(2)
  {
    assert Join(["", "", "", "rrry", "", "", "r"]) == ",,,rrry,,,r";
    NotationHolds(["", "", "", "rrry", "", "", "r"]);
    ForeignCellDownDiagonallyOnTheLeftOn(FromNotation(",,,rrry,,,r"));
  }

  // ---------------------------------------------------------------------------
  // `_getRowIndex`

  /** An empty column makes the lookup fail. */
  lemma RowIndexOfEmptyColumn()
    ensures RowIndex(EmptyGrid()[0]) == Failure(Unexpected)
  {
  }

  /** The topmost of four tokens is in row 3. */
  lemma RowIndexUsuallyOn(g: seq<seq<Cell>>)
    requires Shaped(g) && Holds(g, ["yyyy"])
    ensures RowIndex(g[0]) == Success(3)
  {

  }

  lemma RowIndexUsually()
    ensures RowIndex(FromNotation("yyyy")[0]) == Success(3)
  {
    assert Join(["yyyy"]) == "yyyy";
    NotationHolds(["yyyy"]);
    RowIndexUsuallyOn(FromNotation("yyyy"));
  }

  /** A full column answers the top row. */
  lemma RowIndexOfFullColumnOn(g: seq<seq<Cell>>)
    requires Shaped(g) && Holds(g, ["yyyyyy"])
    ensures RowIndex(g[0]) == Success(5)
  {

  }

  lemma RowIndexOfFullColumn()
    ensures RowIndex(FromNotation("yyyyyy")[0]) == Success(5)
  {
    assert Join(["yyyyyy"]) == "yyyyyy";
    NotationHolds(["yyyyyy"]);
    RowIndexOfFullColumnOn(FromNotation("yyyyyy"));
  }

  // ---------------------------------------------------------------------------
  // `_doStep`

  /** A step into an empty column lands at the bottom. */
  lemma StepOnEmptyColumn()
    ensures Play(Snapshot(EmptyGrid(), None), 'y', 0).Some?
    ensures Play(Snapshot(EmptyGrid(), None), 'y', 0).value.columns[0] == [Some('y'), None, None, None, None, None]
  {
  }

  /** A step lands on the tokens already in the column. */
  lemma StepOnUsualColumnOn(g: seq<seq<Cell>>)
    requires Shaped(g) && Holds(g, ["yyyyyy", "yy", "yyy"])
    ensures Play(Snapshot(g, None), 'r', 1).Some?
    ensures Play(Snapshot(g, None), 'r', 1).value.columns[1] == [Some('y'), Some('y'), Some('r'), None, None, None]
  {
    assert g[1] == [Some('y'), Some('y'), None, None, None, None];
    assert g[1][0].Some? && g[1][1].Some? && g[1][2].None?;
    assert FirstEmpty(g[1]) == Some(2);
  }

  lemma StepOnUsualColumn()
    ensures Play(Snapshot(FromNotation("yyyyyy,yy,yyy"), None), 'r', 1).Some?
    ensures Play(Snapshot(FromNotation("yyyyyy,yy,yyy"), None), 'r', 1).value.columns[1] ==
      [Some('y'), Some('y'), Some('r'), None, None, None]
  {
    assert Join(["yyyyyy", "yy", "yyy"]) == "yyyyyy,yy,yyy";
    NotationHolds(["yyyyyy", "yy", "yyy"]);
    StepOnUsualColumnOn(FromNotation("yyyyyy,yy,yyy"));
  }

  /** A full column refuses the step. */
  lemma StepOnFullColumnOn(g: seq<seq<Cell>>)
    requires Shaped(g) && Holds(g, ["y", "yyyyyy", "yy", "yyy"])
    ensures Play(Snapshot(g, None), 'r', 1).None?
  {

  }

  lemma StepOnFullColumn()
    ensures Play(Snapshot(FromNotation("y,yyyyyy,yy,yyy"), None), 'r', 1).None?
  {
    assert Join(["y", "yyyyyy", "yy", "yyy"]) == "y,yyyyyy,yy,yyy";
    NotationHolds(["y", "yyyyyy", "yy", "yyy"]);
    StepOnFullColumnOn(FromNotation("y,yyyyyy,yy,yyy"));
  }
}
