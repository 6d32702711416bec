/** The "probable wins" heuristic (`_getDirectionProbableWinsCount`,
    `_getProbableWinsCount`): through the topmost token of a column, count
    along each axis how many windows of four could still become a four in a
    row for the player. */
module Threat {
  import opened Wrappers
  import opened Board

  /** `isIndexesOk` and `isCellOk`: the cell is on the board and is either
      empty or the player's own. */
  predicate Open(g: seq<seq<Cell>>, p: char, c: int, r: int)
    requires Shaped(g)
  {
    InBounds(c, r) && (g[c][r] == Some(p) || g[c][r].None?)
  }

  /** The cell at offset t from (c, r) along (dc, dr) is open. */
  predicate OpenAt(g: seq<seq<Cell>>, p: char, c: int, r: int, dc: int, dr: int, t: int)
    requires Shaped(g) && UnitStep(dc, dr)
  {
    Open(g, p, Along(c, dc, t), Along(r, dr, t))
  }

  /** The walk of one `for` loop: how many consecutive cells at offsets k,
      k + 1, ... (below TargetLength) from (c, r) along (dc, dr) are open. */
  function Reach(g: seq<seq<Cell>>, p: char, c: int, r: int, dc: int, dr: int, k: nat): (n: nat)
    requires Shaped(g) && UnitStep(dc, dr) && k <= TargetLength
    ensures k + n <= TargetLength
    ensures forall t | k <= t < k + n :: OpenAt(g, p, c, r, dc, dr, t)
    ensures k + n < TargetLength ==> !OpenAt(g, p, c, r, dc, dr, k + n)
    decreases TargetLength - k
  {
    if k == TargetLength || !OpenAt(g, p, c, r, dc, dr, k) then 0
    else 1 + Reach(g, p, c, r, dc, dr, k + 1)
  }

  /** `_getDirectionProbableWinsCount`: the positive walk stops at offset
      1 + fwd, the negative one at -(1 + back), and the axis scores
      max(0, positive - negative - TargetLength). */
  function AxisScore(g: seq<seq<Cell>>, p: char, c: int, r: int, dc: int, dr: int): (n: nat)
    requires Shaped(g) && UnitStep(dc, dr)
    ensures n <= TargetLength
  {
    var positive := 1 + Reach(g, p, c, r, dc, dr, 1);
    var negative: int := -(1 + Reach(g, p, c, r, -dc, -dr, 1));
    var score := positive - negative - TargetLength;
    if score < 0 then 0 else score
  }

  /** `_getProbableWinsCount`: the four axis scores through the topmost token
      of column `c`, in the order horizontal, vertical, rising diagonal,
      falling diagonal; a failure when the topmost-token lookup fails. */
  function ProbableWins(g: seq<seq<Cell>>, p: char, c: int): (r: Result<nat, RowError>)
    requires Shaped(g) && 0 <= c < ColumnsCount
    ensures r.Failure? <==> g[c][0].None?
    ensures r.Success? ==> r.value <= 4 * TargetLength
  {
    match RowIndex(g[c])
    case Failure(e) => Failure(e)
    case Success(row) => Success(AxesScore(g, p, c, row))
  }

  /** The sum of the four axis scores through (c, r). */
  function AxesScore(g: seq<seq<Cell>>, p: char, c: int, r: int): (n: nat)
    requires Shaped(g)
    ensures n <= 4 * TargetLength
  {
    AxisScore(g, p, c, r, 1, 0) + AxisScore(g, p, c, r, 0, 1)
      + AxisScore(g, p, c, r, 1, 1) + AxisScore(g, p, c, r, 1, -1)
  }

  /** A walk from offset k that finds the cells k .. n - 1 open and stops at
      n (at the last offset, or at a cell that is not open) has reach
      n - k. */
  lemma {:induction false} ReachStops(g: seq<seq<Cell>>, p: char, c: int, r: int, dc: int, dr: int, k: nat, n: nat)
    requires Shaped(g) && UnitStep(dc, dr) && k <= n <= TargetLength
    requires forall t | k <= t < n :: OpenAt(g, p, c, r, dc, dr, t)
    requires n < TargetLength ==> !OpenAt(g, p, c, r, dc, dr, n)
    ensures Reach(g, p, c, r, dc, dr, k) == n - k
    decreases n - k
  {
    if k < n {
      ReachStops(g, p, c, r, dc, dr, k + 1, n);
    }
  }

  /** The backward walk of `_getDirectionProbableWinsCount`, stopping at
      offset m, is the forward walk along the opposite direction stopping
      at -m. */
  lemma BackwardStops(g: seq<seq<Cell>>, p: char, c: int, r: int, dc: int, dr: int, m: int)
    requires Shaped(g) && UnitStep(dc, dr) && -(TargetLength as int) <= m <= -1
    requires forall t | m < t <= -1 :: OpenAt(g, p, c, r, dc, dr, t)
    requires m > -(TargetLength as int) ==> !OpenAt(g, p, c, r, dc, dr, m)
    ensures m == -(1 + Reach(g, p, c, r, -dc, -dr, 1))
  {
    var backC, backR := -dc, -dr;
    forall u | 1 <= u < -m
      ensures OpenAt(g, p, c, r, backC, backR, u)
    {
      assert OpenAt(g, p, c, r, dc, dr, -u);
    }
    if m > -(TargetLength as int) {
      assert !OpenAt(g, p, c, r, dc, dr, m);
      assert !OpenAt(g, p, c, r, backC, backR, -m);
    }
    ReachStops(g, p, c, r, backC, backR, 1, -m);
  }

  // ---------------------------------------------------------------------------
  // What an axis score counts

  /** The window of four offsets s .. s + 3 along the axis: every cell of it
      other than (c, r) itself is open. */
  ghost predicate WindowOpen(g: seq<seq<Cell>>, p: char, c: int, r: int, dc: int, dr: int, s: int)
    requires Shaped(g) && UnitStep(dc, dr)
  {
    forall t | s <= t < s + TargetLength && t != 0 :: OpenAt(g, p, c, r, dc, dr, t)
  }

  /** Number of open windows among those starting at offsets s .. 0, i.e. of
      the windows of four that contain (c, r). */
  ghost function OpenWindows(g: seq<seq<Cell>>, p: char, c: int, r: int, dc: int, dr: int, s: int): nat
    requires Shaped(g) && UnitStep(dc, dr) && s <= 0
    decreases -s
  {
    (if WindowOpen(g, p, c, r, dc, dr, s) then 1 else 0)
      + (if s == 0 then 0 else OpenWindows(g, p, c, r, dc, dr, s + 1))
  }

  /** Walking backwards along (dc, dr) is walking forwards along (-dc, -dr). */
  lemma BackwardOpen(g: seq<seq<Cell>>, p: char, c: int, r: int, dc: int, dr: int)
    requires Shaped(g) && UnitStep(dc, dr)
    ensures var back: int := Reach(g, p, c, r, -dc, -dr, 1);
      && (forall u | -back <= u <= -1 :: OpenAt(g, p, c, r, dc, dr, u))
      && (back < 3 ==> !OpenAt(g, p, c, r, dc, dr, -(back + 1)))
  {
    var back: int := Reach(g, p, c, r, -dc, -dr, 1);
    forall u | -back <= u <= -1
      ensures OpenAt(g, p, c, r, dc, dr, u)
    {
      assert OpenAt(g, p, c, r, -dc, -dr, -u);
    }
    if back < 3 {
      assert !OpenAt(g, p, c, r, -dc, -dr, back + 1);
    }
  }

  lemma WindowOpenIff(g: seq<seq<Cell>>, p: char, c: int, r: int, dc: int, dr: int, s: int)
    requires Shaped(g) && UnitStep(dc, dr) && -3 <= s <= 0
    ensures var fwd := Reach(g, p, c, r, dc, dr, 1);
      var back: int := Reach(g, p, c, r, -dc, -dr, 1);
      WindowOpen(g, p, c, r, dc, dr, s) <==> 0 <= s + back && s + 3 <= fwd
  {
    var fwd := Reach(g, p, c, r, dc, dr, 1);
    var back: int := Reach(g, p, c, r, -dc, -dr, 1);
    BackwardOpen(g, p, c, r, dc, dr);
    if 0 <= s + back && s + 3 <= fwd {
      forall t | s <= t < s + TargetLength && t != 0
        ensures OpenAt(g, p, c, r, dc, dr, t)
      {
      }
    } else if s + back < 0 {
      assert !OpenAt(g, p, c, r, dc, dr, -(back + 1));
    } else {
      assert !OpenAt(g, p, c, r, dc, dr, fwd + 1);
    }
  }

  /** The axis score is exactly the number of windows of four through (c, r)
      along that axis whose other three cells are on the board and empty or
      the player's own. */
  lemma AxisScoreCountsWindows(g: seq<seq<Cell>>, p: char, c: int, r: int, dc: int, dr: int)
    requires Shaped(g) && UnitStep(dc, dr)
    ensures AxisScore(g, p, c, r, dc, dr) == OpenWindows(g, p, c, r, dc, dr, -3)
  {
    WindowOpenIff(g, p, c, r, dc, dr, -3);
    WindowOpenIff(g, p, c, r, dc, dr, -2);
    WindowOpenIff(g, p, c, r, dc, dr, -1);
    WindowOpenIff(g, p, c, r, dc, dr, 0);
  }
}
