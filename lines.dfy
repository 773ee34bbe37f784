/** Line clearing: full rows are removed in one pass, empty rows are added on
    top so that the board keeps its height, and the score rises by
    LINE_POINTS per removed row. */
module LineClear {

  import opened Board

  const LINE_POINTS: int := 100

  /** Number of full rows of g. */
  function FullRows(g: Grid): (n: nat) {
    if g == [] then 0
    else FullRows(g[..|g| - 1]) + (if IsFull(g[|g| - 1]) then 1 else 0)
  }

  /** The rows of g that still have an empty cell, in their original order:
      all rows that are not full, each one a row of g. */
  function Kept(g: Grid): (k: Grid)
    ensures |k| + FullRows(g) == |g|
    ensures forall i :: 0 <= i < |k| ==> !IsFull(k[i]) && k[i] in g
  {
    if g == [] then []
    else
      var last := g[|g| - 1];
      var front := Kept(g[..|g| - 1]);
      assert forall i :: 0 <= i < |front| ==> front[i] in g by {
        forall i | 0 <= i < |front|
          ensures front[i] in g
        {
          var j :| 0 <= j < |g| - 1 && g[..|g| - 1][j] == front[i];
          assert g[j] == front[i];
        }
      }
      front + (if IsFull(last) then [] else [last])
  }

  function EmptyRows(n: nat): (rows: Grid) {
    seq(n, _ => EmptyRow())
  }

  /** The board after one clearing pass: as many empty rows as there were
      full rows, above the remaining rows. The height does not change and
      every row is either a fresh empty row or a row of g. */
  function Cleared(g: Grid): (c: Grid)
    ensures |c| == |g|
    ensures forall i :: 0 <= i < |c| ==> c[i] == EmptyRow() || c[i] in g
  {
    EmptyRows(FullRows(g)) + Kept(g)
  }

  /** Removes the full rows of g, adds LINE_POINTS per removed row to
      score, and pads the board back to HEIGHT rows with empty rows at the
      top. */
  method RemoveFullLines(g: Grid, score: int) returns (newGrid: Grid, newScore: int)
    requires |g| == HEIGHT
    ensures newGrid == Cleared(g)
    ensures |newGrid| == HEIGHT
    ensures newScore == score + LINE_POINTS * FullRows(g)
  {
    // keep the rows that have some empty cell
    newGrid := [];
    var i := 0;
    while i < |g|
      invariant 0 <= i <= |g|
      invariant newGrid == Kept(g[..i])
    {
      assert g[..i + 1][..i] == g[..i];
      if !IsFull(g[i]) {
        newGrid := newGrid + [g[i]];
      }
      i := i + 1;
    }
    assert g[..|g|] == g;
    var clearedLines := HEIGHT - |newGrid|;
    newScore := score + clearedLines * LINE_POINTS;
    // put empty rows back on top
    while |newGrid| < HEIGHT
      invariant |Kept(g)| <= |newGrid| <= HEIGHT
      invariant newGrid == EmptyRows(|newGrid| - |Kept(g)|) + Kept(g)
      decreases HEIGHT - |newGrid|
    {
      newGrid := [EmptyRow()] + newGrid;
    }
  }

  /** No row of g is full exactly when FullRows(g) is 0. */
  lemma {:induction false} NoFullRows(g: Grid)
    ensures FullRows(g) == 0 <==> forall i :: 0 <= i < |g| ==> !IsFull(g[i])
  {
    if g != [] {
      var front := g[..|g| - 1];
      NoFullRows(front);
      if FullRows(g) == 0 {
        forall i | 0 <= i < |g|
          ensures !IsFull(g[i])
        {
          if i < |g| - 1 {
            assert front[i] == g[i];
          }
        }
      }
      if forall i :: 0 <= i < |g| ==> !IsFull(g[i]) {
        forall i | 0 <= i < |front|
          ensures !IsFull(front[i])
        {
          assert front[i] == g[i];
        }
      }
    }
  }

  /** Without full rows every row is kept. */
  lemma {:induction false} KeptAll(g: Grid)
    requires FullRows(g) == 0
    ensures Kept(g) == g
  {
    if g != [] {
      var front := g[..|g| - 1];
      KeptAll(front);
      assert front + [g[|g| - 1]] == g;
    }
  }

  /** A board without full rows comes back unchanged and scores nothing. */
  lemma NoFullRowsUnchanged(g: Grid)
    requires forall i :: 0 <= i < |g| ==> !IsFull(g[i])
    ensures Cleared(g) == g && FullRows(g) == 0
  {
    NoFullRows(g);
    KeptAll(g);
    assert EmptyRows(0) == [];
  }

  /** The shape of the cleared board: HEIGHT rows, the top k = FullRows(g)
      empty, the rest the rows of g that were not full in their original
      order; a well-formed board stays well formed. */
  lemma ClearedShape(g: Grid)
    requires WellFormed(g)
    ensures WellFormed(Cleared(g))
    ensures forall r :: 0 <= r < FullRows(g) ==> Cleared(g)[r] == EmptyRow()
    ensures Cleared(g)[FullRows(g)..] == Kept(g)
  {
    var c := Cleared(g);
    var k := FullRows(g);
    assert |c| == HEIGHT;
    forall r | 0 <= r < |c|
      ensures |c[r]| == WIDTH && forall col :: 0 <= col < WIDTH ==> 0 <= c[r][col] <= MAX_COLOR
    {
      if r >= k {
        assert c[r] == Kept(g)[r - k];
        var j :| 0 <= j < |g| && g[j] == c[r];
      }
    }
    assert c[k..] == Kept(g);
  }

  /** Clearing keeps the board's dimensions. */
  lemma ClearedShaped(g: Grid)
    requires Shaped(g)
    ensures Shaped(Cleared(g))
  {
    var c := Cleared(g);
    forall r | 0 <= r < |c|
      ensures |c[r]| == WIDTH
    {
      if c[r] != EmptyRow() {
        var j :| 0 <= j < |g| && g[j] == c[r];
      }
    }
  }

  /** One pass leaves no full row behind, so a second pass changes nothing
      and scores nothing. */
  lemma ClearedIdempotent(g: Grid)
    requires WellFormed(g)
    ensures FullRows(Cleared(g)) == 0
    ensures Cleared(Cleared(g)) == Cleared(g)
  {
    var c := Cleared(g);
    var k := FullRows(g);
    forall i | 0 <= i < |c|
      ensures !IsFull(c[i])
    {
      if i < k {
        assert c[i] == EmptyRow();
        assert c[i][0] == 0;
      } else {
        assert c[i] == Kept(g)[i - k];
      }
    }
    NoFullRowsUnchanged(c);
  }
}
