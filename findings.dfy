/** Two places where the game as written breaks the invariant Rules.Inv,
    each shown on a concrete state, next to the corrected transition that
    keeps it. */
module Findings {

  import opened Board
  import opened Pieces
  import opened Placement
  import opened LineClear
  import opened Rules

  /** A running game near the top of the board: the square piece (literal
      2) falls at column 8 above two settled cells in row 2, the cell at
      row 0, column 4 is already taken, and the next piece is literal 0. */
  function NearTop(): (s: State) {
    var g := EmptyGrid()[0 := EmptyRow()[4 := 1]][2 := EmptyRow()[8 := 1][9 := 1]];
    State(g, Some(Tetromino(2)), Some(Tetromino(0)), 8, 0, 0, true, false)
  }

  /** The game as written ends on NearTop with the column left at 8; the
      Play button as written then brings in the three-wide literal 0 at
      column 8, so its right column lies beyond the right wall. The
      corrected start places it at the spawn position, on the board. */
  lemma StartAfterGameOverOverhangs()
    ensures Inv(NearTop())
    ensures var over := TickAsWritten(NearTop(), 0, 0);
      !over.started && over.x == 8 && Inv(over) &&
      !Inv(StartGameAsWritten(over, 0, 0)) &&
      Collides(EmptyGrid(), Tetromino(0), 8, 0) &&
      Inv(StartGame(over, 0, 0))
  {
    var s := NearTop();
    var g := s.grid;
    var square := Tetromino(2);
    assert WellFormed(g) by {
      forall r, c | 0 <= r < HEIGHT && 0 <= c < WIDTH
        ensures 0 <= g[r][c] <= MAX_COLOR
      {
      }
    }
    assert !Collides(g, square, 8, 0) by {
      forall r, c | Solid(square, r, c)
        ensures !Blocked(g, 8 + c, r)
      {
      }
    }
    assert Lands(s) by {
      assert Solid(square, 1, 0) && Blocked(g, 8, 2);
    }
    assert Collides(g, Tetromino(0), SPAWN_X, SPAWN_Y) by {
      assert Solid(Tetromino(0), 0, 0) && Blocked(g, 4, 0);
    }
    var over := TickAsWritten(s, 0, 0);
    assert over == s.(started := false, grid := EmptyGrid(), score := 0, y := SPAWN_Y,
                      next := Some(Tetromino(0)));
    assert Solid(Tetromino(0), 0, 2) && Blocked(EmptyGrid(), 10, 0);
    StartGameKeepsInv(over, 0, 0);
  }

  /** A running game in which the square piece (literal 2) falls at the
      spawn position above two settled cells in row 2, with literal 0 next. */
  function Stacked(): (s: State) {
    var g := EmptyGrid()[2 := EmptyRow()[4 := 1][5 := 1]];
    State(g, Some(Tetromino(2)), Some(Tetromino(0)), SPAWN_X, SPAWN_Y, 0, true, false)
  }

  /** Stacked is a state the invariant admits, and its square cannot go
      one row down. */
  lemma StackedLands()
    ensures Inv(Stacked()) && Lands(Stacked())
  {
    var s := Stacked();
    var g := s.grid;
    var square := Tetromino(2);
    assert WellFormed(g) by {
      forall r, c | 0 <= r < HEIGHT && 0 <= c < WIDTH
        ensures 0 <= g[r][c] <= MAX_COLOR
      {
      }
    }
    assert !Collides(g, square, SPAWN_X, SPAWN_Y) by {
      forall r, c | Solid(square, r, c)
        ensures !Blocked(g, SPAWN_X + c, SPAWN_Y + r)
      {
      }
    }
    assert Solid(square, 1, 0) && Blocked(g, 4, 2);
  }

  /** Where the square of Stacked settles: rows 0 and 1, no row full, and
      literal 0 at the spawn position overlaps it. */
  lemma StackedSettles()
    ensures var merged := Merged(Stacked().grid, Tetromino(2), SPAWN_X, SPAWN_Y);
      Cleared(merged) == merged && FullRows(merged) == 0 &&
      Collides(merged, Tetromino(0), SPAWN_X, SPAWN_Y)
  {
    var square := Tetromino(2);
    var merged := Merged(Stacked().grid, square, SPAWN_X, SPAWN_Y);
    assert merged[0][4] == square.color by {
      assert Covers(square, SPAWN_X, SPAWN_Y, 0, 4);
    }
    forall i | 0 <= i < |merged|
      ensures !IsFull(merged[i])
    {
      assert !Covers(square, SPAWN_X, SPAWN_Y, i, 9);
      assert merged[i][9] == 0;
    }
    NoFullRowsUnchanged(merged);
    assert Solid(Tetromino(0), 0, 0) && Blocked(merged, 4, 0);
  }

  /** On the board of Stacked without the square, literal 0 is free at the
      spawn position. */
  lemma StackedSpawnFree()
    ensures !Collides(Stacked().grid, Tetromino(0), SPAWN_X, SPAWN_Y)
  {
    var g := Stacked().grid;
    forall r, c | Solid(Tetromino(0), r, c)
      ensures !Blocked(g, SPAWN_X + c, SPAWN_Y + r)
    {
    }
  }

  /** On Stacked the square settles at rows 0 and 1. The tick as written
      checks literal 0 against the board without the square, finds it free,
      and lets it run on top of the square's cells; the corrected tick
      checks the board the piece will fall into and ends the game. */
  lemma StaleSpawnCheckOverlaps()
    ensures Inv(Stacked())
    ensures var r := TickAsWritten(Stacked(), 0, 0);
      r.started && r.current == Some(Tetromino(0)) && r.x == SPAWN_X && r.y == SPAWN_Y &&
      Collides(r.grid, Tetromino(0), SPAWN_X, SPAWN_Y) && !Inv(r)
    ensures !Tick(Stacked(), 0, 0).started
  {
    StackedLands();
    StackedSettles();
    StackedSpawnFree();
    var s := Stacked();
    var t := Tetromino(0);
    var merged := Merged(s.grid, Tetromino(2), SPAWN_X, SPAWN_Y);
    var r := TickAsWritten(s, 0, 0);
    assert r == s.(grid := merged, score := s.score,
                   current := Some(t), next := Some(t), x := SPAWN_X, y := SPAWN_Y);
  }
}
