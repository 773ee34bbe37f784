/** Falling pieces: a rectangular shape of 0 / non-zero cells and one colour,
    the five literal pieces the game draws from, and clockwise rotation. */
module Pieces {

  import opened Board

  type Shape = seq<seq<int>>

  datatype Block = Block(shape: Shape, color: int)

  /** Number of literal pieces; a random index is drawn from [0, PIECE_COUNT). */
  const PIECE_COUNT: int := 5

  /** At least one row, at least one column, and every row as long as the first. */
  predicate Rectangular(shape: Shape) {
    |shape| > 0 && |shape[0]| > 0 &&
    forall r :: 0 <= r < |shape| ==> |shape[r]| == |shape[0]|
  }

  /** The cell at (r, c) of the shape exists and is filled. */
  predicate Solid(b: Block, r: int, c: int) {
    0 <= r < |b.shape| && 0 <= c < |b.shape[r]| && b.shape[r][c] != 0
  }

  ghost predicate HasCell(b: Block) {
    exists r, c :: Solid(b, r, c)
  }

  /** What every piece in play looks like: a rectangle of cells that are
      either empty or the piece's own colour 1..MAX_COLOR, with at least one
      filled cell. */
  ghost predicate Proper(b: Block) {
    Rectangular(b.shape) && 1 <= b.color <= MAX_COLOR && HasCell(b) &&
    forall r, c :: 0 <= r < |b.shape| && 0 <= c < |b.shape[r]| ==>
      b.shape[r][c] == 0 || b.shape[r][c] == b.color
  }

  /** The piece literals, indexed as the random choice indexes them. */
  function Tetromino(i: int): (b: Block)
    requires 0 <= i < PIECE_COUNT
    ensures Proper(b) && b.color == i + 1
    ensures |b.shape| <= 3 && |b.shape[0]| <= 3
  {
    var b :=
      if i == 0 then Block([[1, 1, 1], [0, 1, 0]], 1)
      else if i == 1 then Block([[2, 2, 0], [0, 2, 2]], 2)
      else if i == 2 then Block([[3, 3], [3, 3]], 3)
      else if i == 3 then Block([[4, 0], [4, 4], [4, 4]], 4)
      else Block([[0, 5], [5, 5], [5, 0]], 5);
    assert Solid(b, 1, 1);
    b
  }

  /** Column i of a rectangular shape, read top to bottom. */
  function Column(shape: Shape, i: int): (col: seq<int>)
    requires Rectangular(shape) && 0 <= i < |shape[0]|
  {
    seq(|shape|, r requires 0 <= r < |shape| => shape[r][i])
  }

  /** Rows become columns. */
  function Transpose(shape: Shape): (t: Shape)
    requires Rectangular(shape)
  {
    seq(|shape[0]|, i requires 0 <= i < |shape[0]| => Column(shape, i))
  }

  function Reverse(s: seq<int>): (t: seq<int>) {
    seq(|s|, k requires 0 <= k < |s| => s[|s| - 1 - k])
  }

  /** Clockwise quarter turn: transpose, then reverse every row. An h x w
      shape becomes a w x h shape whose cell (i, j) is the old cell
      (h - 1 - j, i); the colour is kept. */
  function Rotate(b: Block): (r: Block)
    requires Rectangular(b.shape)
    ensures Rectangular(r.shape) && r.color == b.color
    ensures |r.shape| == |b.shape[0]| && |r.shape[0]| == |b.shape|
    ensures forall i, j :: 0 <= i < |r.shape| && 0 <= j < |r.shape[i]| ==>
      r.shape[i][j] == b.shape[|b.shape| - 1 - j][i]
  {
    var t := Transpose(b.shape);
    Block(seq(|t|, i requires 0 <= i < |t| => Reverse(t[i])), b.color)
  }

  /** A quarter turn keeps a piece in play well formed. */
  lemma RotateProper(b: Block)
    requires Proper(b)
    ensures Proper(Rotate(b))
  {
    var r := Rotate(b);
    var h := |b.shape|;
    var row, col :| Solid(b, row, col);
    assert r.shape[col][h - 1 - row] == b.shape[row][col];
    assert Solid(r, col, h - 1 - row);
  }

  /** Two quarter turns: cell (i, j) comes from (h - 1 - i, w - 1 - j). */
  lemma {:induction false} RotateTwice(b: Block)
    requires Rectangular(b.shape)
    ensures Rectangular(Rotate(Rotate(b)).shape)
    ensures |Rotate(Rotate(b)).shape| == |b.shape|
    ensures |Rotate(Rotate(b)).shape[0]| == |b.shape[0]|
    ensures forall i, j :: 0 <= i < |b.shape| && 0 <= j < |b.shape[0]| ==>
      Rotate(Rotate(b)).shape[i][j] == b.shape[|b.shape| - 1 - i][|b.shape[0]| - 1 - j]
  {
    var r1 := Rotate(b);
    var r2 := Rotate(r1);
    forall i, j | 0 <= i < |b.shape| && 0 <= j < |b.shape[0]|
      ensures r2.shape[i][j] == b.shape[|b.shape| - 1 - i][|b.shape[0]| - 1 - j]
    {
      assert r2.shape[i][j] == r1.shape[|r1.shape| - 1 - j][i];
    }
  }

  /** Four quarter turns give back the original piece. */
  lemma {:induction false} RotateFourTimes(b: Block)
    requires Rectangular(b.shape)
    ensures Rotate(Rotate(Rotate(Rotate(b)))) == b
  {
    var h, w := |b.shape|, |b.shape[0]|;
    RotateTwice(b);
    var r2 := Rotate(Rotate(b));
    RotateTwice(r2);
    var r4 := Rotate(Rotate(r2));
    forall i | 0 <= i < h
      ensures r4.shape[i] == b.shape[i]
    {
      forall j | 0 <= j < w
        ensures r4.shape[i][j] == b.shape[i][j]
      {
        assert r4.shape[i][j] == r2.shape[h - 1 - i][w - 1 - j];
      }
    }
  }

  /** The worked example: the first literal piece turned once. */
  lemma RotateExample()
    ensures Rotate(Tetromino(0)) == Block([[0, 1], [1, 1], [0, 1]], 1)
  {
    var r := Rotate(Tetromino(0));
    assert r.shape[0] == [0, 1];
    assert r.shape[1] == [1, 1];
    assert r.shape[2] == [0, 1];
  }
}
