/** The position notation read by `fill`: columns separated by ',', each
    column's tokens listed from the bottom row up. */
module Notation {
  import opened Wrappers
  import opened Board

  const Delimiter: char := ','

  /** `String.prototype.split(',')`: the pieces between delimiters, in order;
      the empty string splits into one empty piece. */
  function Split(s: string): (r: seq<string>)
    ensures |r| >= 1
    ensures forall k | 0 <= k < |r| :: Delimiter !in r[k]
  {
    if |s| == 0 then [""]
    else
      var rest := Split(s[1..]);
      if s[0] == Delimiter then [""] + rest
      else [[s[0]] + rest[0]] + rest[1..]
  }

  /** Puts the delimiter back between the pieces. */
  function Join(segments: seq<string>): (s: string)
    requires |segments| >= 1
  {
    if |segments| == 1 then segments[0]
    else segments[0] + [Delimiter] + Join(segments[1..])
  }

  /** Splitting loses nothing: joining the pieces gives the text back. */
  lemma {:induction false} JoinSplit(s: string)
    ensures Join(Split(s)) == s
  {
    if |s| > 0 {
      var rest := Split(s[1..]);
      JoinSplit(s[1..]);
      if s[0] == Delimiter {
        assert ([""] + rest)[1..] == rest;
      } else {
        var r := [[s[0]] + rest[0]] + rest[1..];
        assert r[1..] == rest[1..];
        if |rest| > 1 {
          assert Join(rest) == rest[0] + [Delimiter] + Join(rest[1..]);
        }
      }
    }
  }

  lemma {:induction false} SplitPrefix(w: string, t: string)
    requires Delimiter !in w
    ensures Split(w + t) == [w + Split(t)[0]] + Split(t)[1..]
  {
    if |w| > 0 {
      assert (w + t)[1..] == w[1..] + t;
      SplitPrefix(w[1..], t);
      assert [w[0]] + (w[1..] + Split(t)[0]) == w + Split(t)[0];
    } else {
      assert w + t == t;
      assert w + Split(t)[0] == Split(t)[0];
      assert Split(t) == [Split(t)[0]] + Split(t)[1..];
    }
  }

  /** Pieces without delimiters come back unchanged from a join and a split. */
  lemma {:induction false} SplitJoin(segments: seq<string>)
    requires |segments| >= 1
    requires forall k | 0 <= k < |segments| :: Delimiter !in segments[k]
    ensures Split(Join(segments)) == segments
  {
    var w := segments[0];
    if |segments| == 1 {
      SplitPrefix(w, "");
      assert w + "" == w;
    } else {
      var tail := Join(segments[1..]);
      SplitJoin(segments[1..]);
      assert Join(segments) == w + ([Delimiter] + tail);
      SplitPrefix(w, [Delimiter] + tail);
      assert ([Delimiter] + tail)[1..] == tail;
      assert Split([Delimiter] + tail) == [""] + segments[1..];
      assert w + "" == w;
    }
  }

  /** The grid `fill` leaves behind: cell j of column i takes character j of
      piece i when both exist within the 7 x 6 bounds, every other cell keeps
      its old content. */
  function Filled(g: seq<seq<Cell>>, segments: seq<string>): (r: seq<seq<Cell>>)
    requires Shaped(g)
    ensures Shaped(r)
  {
    seq(ColumnsCount, i requires 0 <= i < ColumnsCount =>
      seq(RowsCount, j requires 0 <= j < RowsCount =>
        if i < |segments| && j < |segments[i]| then Some(segments[i][j]) else g[i][j]))
  }

  /** `fill` on a freshly built field. */
  function FromNotation(cells: string): (g: seq<seq<Cell>>)
    ensures Shaped(g)
  {
    Filled(EmptyGrid(), Split(cells))
  }

  /** `fill` keeps gravity: it writes a prefix of every column it touches. */
  lemma FilledStacked(g: seq<seq<Cell>>, segments: seq<string>)
    requires Shaped(g) && AllStacked(g)
    ensures AllStacked(Filled(g, segments))
  {
    var r := Filled(g, segments);
    forall i | 0 <= i < ColumnsCount
      ensures Stacked(r[i])
    {
      forall j, k | 0 <= j < k < RowsCount && r[i][k].Some?
        ensures r[i][j].Some?
      {
        if !(i < |segments| && j < |segments[i]|) {
          assert g[i][k].Some?;
        }
      }
    }
  }

  /** `fill` writes only tokens, so on an empty field it always yields a
      position that obeys gravity. */
  lemma FilledEmptyStacked(segments: seq<string>)
    ensures AllStacked(Filled(EmptyGrid(), segments))
  {
    FilledStacked(EmptyGrid(), segments);
  }

  // ---------------------------------------------------------------------------
  // Writing a position back in the notation

  /** The tokens of a column from the bottom up to its first empty cell. */
  function Tokens(col: seq<Cell>): (s: string)
    ensures |s| <= |col|
  {
    if |col| == 0 || col[0].None? then "" else [col[0].value] + Tokens(col[1..])
  }

  function Render(g: seq<seq<Cell>>): string
    requires Shaped(g)
  {
    Join(seq(ColumnsCount, i requires 0 <= i < ColumnsCount => Tokens(g[i])))
  }

  lemma {:induction false} TokensStacked(col: seq<Cell>)
    requires Stacked(col)
    ensures |Tokens(col)| == TokenCount(col)
    ensures forall j | 0 <= j < |col| ::
      if j < TokenCount(col) then col[j] == Some(Tokens(col)[j]) else col[j].None?
  {
    if |col| > 0 {
      var rest := col[1..];
      assert forall j | 0 <= j < |rest| :: rest[j] == col[j + 1];
      if col[0].Some? {
        TokensStacked(rest);
      } else {
        assert forall j | 0 <= j < |col| :: col[j].None?;
      }
    }
  }

  predicate NoDelimiterToken(g: seq<seq<Cell>>) {
    forall i, j | 0 <= i < |g| && 0 <= j < |g[i]| :: g[i][j] != Some(Delimiter)
  }

  /** Parsing the notation of a position that obeys gravity, on an empty
      field, rebuilds that position (as long as no token is the delimiter). */
  lemma ParseRender(g: seq<seq<Cell>>)
    requires Shaped(g) && AllStacked(g) && NoDelimiterToken(g)
    ensures Filled(EmptyGrid(), Split(Render(g))) == g
  {
    var t := seq(ColumnsCount, i requires 0 <= i < ColumnsCount => Tokens(g[i]));
    forall k | 0 <= k < ColumnsCount
      ensures Delimiter !in t[k] && |t[k]| == TokenCount(g[k])
      ensures forall j | 0 <= j < RowsCount ::
        if j < TokenCount(g[k]) then g[k][j] == Some(t[k][j]) else g[k][j].None?
    {
      TokensStacked(g[k]);
    }
    SplitJoin(t);
    GridExtensionality(Filled(EmptyGrid(), t), g);
  }
}
