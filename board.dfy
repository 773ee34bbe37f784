/** The playing field: a fixed grid of HEIGHT rows of WIDTH integer cells.
    A cell holds 0 when it is empty and a piece colour 1..MAX_COLOR when a
    settled piece occupies it. */
module Board {

  const WIDTH: int := 10
  const HEIGHT: int := 20
  const MAX_COLOR: int := 5

  type Row = seq<int>
  type Grid = seq<Row>

  /** HEIGHT rows of WIDTH cells each. */
  predicate Shaped(g: Grid) {
    |g| == HEIGHT && forall r :: 0 <= r < |g| ==> |g[r]| == WIDTH
  }

  /** Shaped, and every cell is empty or a piece colour. */
  predicate WellFormed(g: Grid) {
    Shaped(g) &&
    forall r, c :: 0 <= r < |g| && 0 <= c < |g[r]| ==> 0 <= g[r][c] <= MAX_COLOR
  }

  /** A row with no empty cell left. */
  predicate IsFull(row: Row) {
    forall c :: 0 <= c < |row| ==> row[c] != 0
  }

  function EmptyRow(): (row: Row)
    ensures |row| == WIDTH && forall c :: 0 <= c < WIDTH ==> row[c] == 0
  {
    seq(WIDTH, _ => 0)
  }

  /** The board the game starts with and returns to after a game over. */
  function EmptyGrid(): (g: Grid)
    ensures WellFormed(g)
    ensures forall r, c :: 0 <= r < HEIGHT && 0 <= c < WIDTH ==> g[r][c] == 0
  {
    seq(HEIGHT, _ => EmptyRow())
  }
}
