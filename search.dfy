/** The two game-tree searches of the field: the exhaustive `isSuccessful`
    and the depth-limited `_getStepAnalysis` with its driver
    `getStepAnalysis`. Both work on snapshots: every hypothetical move is a
    fresh copy (`_getNextStepFieldOrNull`), which keeps `_player`. */
module Search {
  import opened Wrappers
  import opened Board
  import opened Win
  import opened Threat

  // ---------------------------------------------------------------------------
  // Exhaustive search

  /** `isSuccessful(player, columnIndex)`: false when the column is full; when
      the move makes four in a row, whether the mover is the recorded
      `_player`; otherwise, over the seven replies of the other player, `some`
      when the mover is `_player` and `every` when it is not. */
  function IsSuccessful(s: Snapshot, p: char, c: int): (ok: bool)
    requires s.Valid() && 0 <= c < ColumnsCount
    ensures Full(s.columns[c]) ==> !ok
    ensures Play(s, p, c).Some? && Won(Play(s, p, c).value.columns, p) ==> (ok <==> s.player == Some(p))
    decreases EmptyCount(s.columns), 0
  {
    match Play(s, p, c)
    case None => false
    case Some(next) =>
      if Won(next.columns, p) then s.player == Some(p)
      else if s.player == Some(p) then SomeSuccessful(next, Another(p))
      else EverySuccessful(next, Another(p))
  }

  /** `columnsIndexes.some(isColumnIndexSuccessful)`. */
  predicate SomeSuccessful(s: Snapshot, p: char)
    requires s.Valid()
    decreases EmptyCount(s.columns), 1
  {
    exists k | 0 <= k < ColumnsCount :: IsSuccessful(s, p, k)
  }

  /** `columnsIndexes.every(isColumnIndexSuccessful)`. */
  predicate EverySuccessful(s: Snapshot, p: char)
    requires s.Valid()
    decreases EmptyCount(s.columns), 1
  {
    forall k | 0 <= k < ColumnsCount :: IsSuccessful(s, p, k)
  }

  /** A move that fills the last empty cell without making four in a row is
      never successful: none of the seven replies is possible. */
  lemma LastCellNotSuccessful(s: Snapshot, p: char, c: int)
    requires s.Valid() && 0 <= c < ColumnsCount && EmptyCount(s.columns) == 1
    requires Play(s, p, c).Some? && !Won(Play(s, p, c).value.columns, p)
    ensures !IsSuccessful(s, p, c)
  {
    var next := Play(s, p, c).value;
    EmptyCountZero(next.columns);
    assert !IsSuccessful(next, Another(p), 0);
  }

  /** On a full board no step is successful. */
  lemma FullBoardNotSuccessful(s: Snapshot, p: char, c: int)
    requires s.Valid() && 0 <= c < ColumnsCount && EmptyCount(s.columns) == 0
    ensures !IsSuccessful(s, p, c)
  {
    EmptyCountZero(s.columns);
  }

  /** A line of play from `s` that starts with `p` in column `c`, alternates
      the players, and ends with a four in a row of the recorded `_player`. */
  ghost predicate WinReachable(s: Snapshot, p: char, c: int)
    requires s.Valid() && 0 <= c < ColumnsCount
    decreases EmptyCount(s.columns)
  {
    match Play(s, p, c)
    case None => false
    case Some(next) =>
      if Won(next.columns, p) then s.player == Some(p)
      else exists c' | 0 <= c' < ColumnsCount :: WinReachable(next, Another(p), c')
  }

  /** A successful step always has a continuation in which `_player` makes
      four in a row. */
  lemma {:induction false} SuccessfulReachesWin(s: Snapshot, p: char, c: int)
    requires s.Valid() && 0 <= c < ColumnsCount && IsSuccessful(s, p, c)
    ensures WinReachable(s, p, c)
    decreases EmptyCount(s.columns)
  {
    var next := Play(s, p, c).value;
    if !Won(next.columns, p) {
      var q := Another(p);
      if s.player == Some(p) {
        assert SomeSuccessful(next, q);
        var c' :| 0 <= c' < ColumnsCount && IsSuccessful(next, q, c');
        SuccessfulReachesWin(next, q, c');
      } else {
        assert EverySuccessful(next, q);
        assert IsSuccessful(next, q, 0);
        SuccessfulReachesWin(next, q, 0);
      }
    }
  }

  /** When the mover is not `_player`, success demands that every reply of
      the other player be possible: one full column after the move already
      makes the step unsuccessful. */
  lemma OpponentStepNeedsAllReplies(s: Snapshot, p: char, c: int, c': int)
    requires s.Valid() && 0 <= c < ColumnsCount && 0 <= c' < ColumnsCount
    requires s.player != Some(p) && IsSuccessful(s, p, c)
    requires !Won(Play(s, p, c).value.columns, p)
    ensures !Full(Play(s, p, c).value.columns[c'])
  {
    var next := Play(s, p, c).value;
    assert IsSuccessful(next, Another(p), c');
  }

  // ---------------------------------------------------------------------------
  // Depth-limited search

  /** The analytics object: `wins`, `probableWinsCount` and
      `anotherProbableWinsCount`, each possibly absent. */
  datatype Analysis = Analysis(wins: Option<char>, probableWinsCount: Option<nat>, anotherProbableWinsCount: Option<nat>)

  /** `_.max` over the defined values: None when there are none. */
  function MaxDefined(xs: seq<Option<nat>>): (m: Option<nat>)
    ensures m.None? <==> forall k | 0 <= k < |xs| :: xs[k].None?
    ensures m.Some? ==> exists k | 0 <= k < |xs| :: xs[k] == m
    ensures m.Some? ==> forall k | 0 <= k < |xs| && xs[k].Some? :: xs[k].value <= m.value
  {
    if |xs| == 0 then None
    else
      var rest := MaxDefined(xs[1..]);
      assert forall k | 1 <= k < |xs| :: xs[k] == xs[1..][k - 1];
      if xs[0].None? then rest
      else if rest.Some? && rest.value > xs[0].value then rest
      else xs[0]
  }

  /** `_.map(analyticses, 'probableWinsCount')` for one entry: a missing
      analysis or a missing count gives nothing. */
  function ProbableOf(a: Option<Analysis>): Option<nat> {
    if a.Some? then a.value.probableWinsCount else None
  }

  /** `_getStepAnalysis(player, columnIndex, depth)`. */
  function StepAnalysis(s: Snapshot, p: char, c: int, depth: int): (r: Option<Analysis>)
    requires s.Valid() && 0 <= c < ColumnsCount
    ensures r.None? <==> Full(s.columns[c])
    ensures r.Some? ==> r.value.wins == None || r.value.wins == Some(p) || r.value.wins == Some(Another(p))
    ensures r.Some? && r.value.probableWinsCount.None? ==> r.value == Analysis(Some(p), None, None)
    ensures r.Some? ==> (r.value.probableWinsCount.None? <==> Won(Play(s, p, c).value.columns, p))
    ensures r.Some? && !Won(Play(s, p, c).value.columns, p) ==>
      r.value.probableWinsCount == Some(ProbableWins(Play(s, p, c).value.columns, p, c).value)
    ensures r.Some? && r.value.probableWinsCount.Some? ==> r.value.probableWinsCount.value <= 4 * TargetLength
    ensures r.Some? && r.value.anotherProbableWinsCount.Some? ==> r.value.anotherProbableWinsCount.value <= 4 * TargetLength
    ensures r.Some? && depth <= 1 ==> r.value.anotherProbableWinsCount.None?
    decreases depth
  {
    match Play(s, p, c)
    case None => None
    case Some(next) =>
      if Won(next.columns, p) then Some(Analysis(Some(p), None, None))
      else
        var count := ProbableWins(next.columns, p, c).value;
        var d := depth - 1;
        if d <= 0 then Some(Analysis(None, Some(count), None))
        else
          var q := Another(p);
          var children := seq(ColumnsCount, k requires 0 <= k < ColumnsCount => StepAnalysis(next, q, k, d));
          Some(Analysis(Verdict(children, p, q), Some(count), MaxDefined(seq(ColumnsCount, k requires 0 <= k < ColumnsCount => ProbableOf(children[k])))))
  }

  /** One level of `_getStepAnalysis` once the children are known: the
      verdict over them and the largest of their counts. */
  lemma StepAnalysisChildren(s: Snapshot, p: char, c: int, depth: int, next: Snapshot, children: seq<Option<Analysis>>)
    requires s.Valid() && 0 <= c < ColumnsCount && depth > 1
    requires Play(s, p, c) == Some(next) && !Won(next.columns, p)
    requires |children| == ColumnsCount
    requires forall k | 0 <= k < ColumnsCount :: children[k] == StepAnalysis(next, Another(p), k, depth - 1)
    ensures StepAnalysis(s, p, c, depth) == Some(Analysis(Verdict(children, p, Another(p)),
      Some(ProbableWins(next.columns, p, c).value),
      MaxDefined(seq(ColumnsCount, k requires 0 <= k < ColumnsCount => ProbableOf(children[k])))))
  {
    var cs := seq(ColumnsCount, k requires 0 <= k < ColumnsCount => StepAnalysis(next, Another(p), k, depth - 1));
    assert cs == children;
  }

  /** A move that fills the last empty cell without making four in a row,
      analysed with depth to spare, is recorded as a win for the mover: every
      reply is impossible, and no reply count exists. */
  lemma LastCellAnalysis(s: Snapshot, p: char, c: int, depth: int)
    requires s.Valid() && 0 <= c < ColumnsCount && EmptyCount(s.columns) == 1 && depth > 1
    requires Play(s, p, c).Some? && !Won(Play(s, p, c).value.columns, p)
    ensures StepAnalysis(s, p, c, depth).Some?
    ensures StepAnalysis(s, p, c, depth).value.wins == Some(p)
    ensures StepAnalysis(s, p, c, depth).value.anotherProbableWinsCount.None?
  {
    var next := Play(s, p, c).value;
    EmptyCountZero(next.columns);
    var children := seq(ColumnsCount, k requires 0 <= k < ColumnsCount => StepAnalysis(next, Another(p), k, depth - 1));
    StepAnalysisChildren(s, p, c, depth, next, children);
    assert forall k | 0 <= k < ColumnsCount :: children[k].None?;
  }

  /** A step recorded in `getStepAnalysis`'s result. */
  datatype ColumnAnalysis = ColumnAnalysis(columnIndex: nat, analysis: Analysis)

  /** `getStepAnalysis(player)`: the analysis of every column at depth 6,
      tagged with its column index; null for a full column. */
  function GetStepAnalysis(s: Snapshot, p: char): (r: seq<Option<ColumnAnalysis>>)
    requires s.Valid()
    ensures |r| == ColumnsCount
    ensures forall c | 0 <= c < ColumnsCount :: r[c].None? <==> Full(s.columns[c])
    ensures forall c | 0 <= c < ColumnsCount && r[c].Some? ::
      r[c].value.columnIndex == c && StepAnalysis(s, p, c, 6) == Some(r[c].value.analysis)
  {
    seq(ColumnsCount, c requires 0 <= c < ColumnsCount =>
      match StepAnalysis(s, p, c, 6)
      case None => None
      case Some(a) => Some(ColumnAnalysis(c, a)))
  }

  /** `p`, by playing `c`, can force a four in a row of its own or a board on
      which the other player cannot move, whatever that player replies. */
  ghost predicate CanForce(s: Snapshot, p: char, c: int)
    requires s.Valid() && 0 <= c < ColumnsCount
    decreases EmptyCount(s.columns), 2
  {
    match Play(s, p, c)
    case None => false
    case Some(next) => Won(next.columns, p) || RepliesAnswered(next, Another(p), p)
  }

  /** Every reply of `q` on `s` is answered by `p`. */
  ghost predicate RepliesAnswered(s: Snapshot, q: char, p: char)
    requires s.Valid()
    decreases EmptyCount(s.columns), 1
  {
    forall k | 0 <= k < ColumnsCount :: ReplyAnswered(s, q, k, p)
  }

  /** The reply of `q` in column k is impossible, or it does not make four in
      a row and leaves `p` a column from which `p` can force again. */
  ghost predicate ReplyAnswered(s: Snapshot, q: char, k: int, p: char)
    requires s.Valid() && 0 <= k < ColumnsCount
    decreases EmptyCount(s.columns), 0
  {
    match Play(s, q, k)
    case None => true
    case Some(reply) =>
      !Won(reply.columns, q) && exists c | 0 <= c < ColumnsCount :: CanForce(reply, p, c)
  }

  /** The verdict of `_getStepAnalysis` from its children: the other player
      `q` when one of q's replies is recorded as a win for q, else the mover
      `p` when every reply is impossible or recorded as a win for p. */
  function Verdict(children: seq<Option<Analysis>>, p: char, q: char): (w: Option<char>)
    requires p != q
    ensures w == Some(q) <==> exists k | 0 <= k < |children| :: children[k].Some? && children[k].value.wins == Some(q)
    ensures w == Some(p) ==> forall k | 0 <= k < |children| :: children[k].None? || children[k].value.wins == Some(p)
    ensures (forall k | 0 <= k < |children| :: children[k].None? || children[k].value.wins == Some(p)) ==> w == Some(p)
    ensures w == None || w == Some(p) || w == Some(q)
  {
    if exists k | 0 <= k < |children| :: children[k].Some? && children[k].value.wins == Some(q) then Some(q)
    else if forall k | 0 <= k < |children| :: children[k].None? || children[k].value.wins == Some(p) then Some(p)
    else None
  }

  /** Unfolds a verdict naming the mover: the move does not win at once, so
      the search went one level deeper and every reply is impossible or
      recorded as a win for the mover. */
  lemma MoverVerdictChildren(s: Snapshot, p: char, c: int, d: int)
    requires s.Valid() && 0 <= c < ColumnsCount
    requires StepAnalysis(s, p, c, d + 1).Some? && StepAnalysis(s, p, c, d + 1).value.wins == Some(p)
    requires !Won(Play(s, p, c).value.columns, p)
    ensures d > 0
    ensures forall k | 0 <= k < ColumnsCount ::
      StepAnalysis(Play(s, p, c).value, Another(p), k, d).None? ||
      StepAnalysis(Play(s, p, c).value, Another(p), k, d).value.wins == Some(p)
  {
    var next := Play(s, p, c).value;
    var q := Another(p);
    var children := seq(ColumnsCount, k requires 0 <= k < ColumnsCount => StepAnalysis(next, q, k, d));
    assert StepAnalysis(s, p, c, d + 1).value.wins == Verdict(children, p, q);
    forall k | 0 <= k < ColumnsCount
      ensures StepAnalysis(next, q, k, d).None? || StepAnalysis(next, q, k, d).value.wins == Some(p)
    {
      assert children[k] == StepAnalysis(next, q, k, d);
    }
  }

  /** Unfolds a verdict naming the other player: the move is possible, does
      not win at once, and some reply is recorded as a win for the other
      player. */
  lemma OpponentVerdictChild(s: Snapshot, p: char, c: int, d: int)
    requires s.Valid() && 0 <= c < ColumnsCount
    requires StepAnalysis(s, p, c, d + 1).Some? && StepAnalysis(s, p, c, d + 1).value.wins == Some(Another(p))
    ensures Play(s, p, c).Some? && !Won(Play(s, p, c).value.columns, p) && d > 0
    ensures exists k | 0 <= k < ColumnsCount ::
      StepAnalysis(Play(s, p, c).value, Another(p), k, d).Some? &&
      StepAnalysis(Play(s, p, c).value, Another(p), k, d).value.wins == Some(Another(p))
  {
    var next := Play(s, p, c).value;
    var children := seq(ColumnsCount, k requires 0 <= k < ColumnsCount => StepAnalysis(next, Another(p), k, d));
    assert Verdict(children, p, Another(p)) == Some(Another(p));
  }

  /** A verdict naming the mover is sound: the mover can force a four in a
      row (or a board the other player cannot move on). */
  lemma {:induction false} MoverVerdictSound(s: Snapshot, p: char, c: int, depth: int)
    requires s.Valid() && 0 <= c < ColumnsCount && (p == 'y' || p == 'r')
    requires StepAnalysis(s, p, c, depth).Some? && StepAnalysis(s, p, c, depth).value.wins == Some(p)
    ensures CanForce(s, p, c)
    decreases depth, 2
  {
    var next := Play(s, p, c).value;
    if !Won(next.columns, p) {
      MoverVerdictChildren(s, p, c, depth - 1);
      RepliesSound(next, Another(p), p, depth - 1);
    }
  }

  /** When every reply of `q` is impossible or recorded as a win for `p`,
      every reply is answered by `p`. */
  lemma {:induction false} RepliesSound(next: Snapshot, q: char, p: char, d: int)
    requires next.Valid() && (q == 'y' || q == 'r') && p == Another(q)
    requires forall k | 0 <= k < ColumnsCount ::
      StepAnalysis(next, q, k, d).None? || StepAnalysis(next, q, k, d).value.wins == Some(p)
    ensures RepliesAnswered(next, q, p)
    decreases d, 1
  {
    forall k | 0 <= k < ColumnsCount
      ensures ReplyAnswered(next, q, k, p)
    {
      if Play(next, q, k).Some? {
        OpponentVerdictSound(next, q, k, d);
      }
    }
  }

  /** A verdict naming the other player is sound: the move is possible, does
      not win, and leaves the other player a reply from which that player can
      force a four in a row (or a full board). */
  lemma {:induction false} OpponentVerdictSound(s: Snapshot, p: char, c: int, depth: int)
    requires s.Valid() && 0 <= c < ColumnsCount && (p == 'y' || p == 'r')
    requires StepAnalysis(s, p, c, depth).Some? && StepAnalysis(s, p, c, depth).value.wins == Some(Another(p))
    ensures Play(s, p, c).Some? && !Won(Play(s, p, c).value.columns, p)
    ensures exists c' | 0 <= c' < ColumnsCount :: CanForce(Play(s, p, c).value, Another(p), c')
    decreases depth, 0
  {
    OpponentVerdictChild(s, p, c, depth - 1);
    var next := Play(s, p, c).value;
    var q := Another(p);
    var k :| 0 <= k < ColumnsCount && StepAnalysis(next, q, k, depth - 1).Some? && StepAnalysis(next, q, k, depth - 1).value.wins == Some(q);
    AnotherSwaps(p);
    MoverVerdictSound(next, q, k, depth - 1);
  }
}
