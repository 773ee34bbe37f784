/** The engine as an object whose fields are the game's state variables.
    Each handler and the timer tick updates those fields in place through
    the board operations, and is proved to do exactly what the matching
    transition of Rules describes, keeping Rules.Inv. */
module Engine {

  import opened Board
  import opened Pieces
  import opened Placement
  import opened LineClear
  import opened Rules

  class Game {
    var grid: Grid
    var current: Option<Block>
    var next: Option<Block>
    var x: int
    var y: int
    var score: int
    var started: bool
    var paused: bool

    /** The fields as one state record. */
    ghost function Snapshot(): State
      reads this
    {
      State(grid, current, next, x, y, score, started, paused)
    }

    ghost predicate Valid()
      reads this
    {
      Inv(Snapshot())
    }

    /** An empty board, no pieces yet, column 4, row 0, score 0, not
        started and not paused. */
    constructor ()
      ensures Valid() && Snapshot() == Initial()
    {
      grid := EmptyGrid();
      current := None;
      next := None;
      x := SPAWN_X;
      y := SPAWN_Y;
      score := 0;
      started := false;
      paused := false;
    }

    /** The Play button, shown only between games. */
    method StartGame(currentIndex: int, nextIndex: int)
      requires Valid() && !started
      requires 0 <= currentIndex < PIECE_COUNT && 0 <= nextIndex < PIECE_COUNT
      modifies this
      ensures Valid() && Snapshot() == Rules.StartGame(old(Snapshot()), currentIndex, nextIndex)
    {
      StartGameKeepsInv(Snapshot(), currentIndex, nextIndex);
      started := true;
      paused := false;
      current := Some(Tetromino(currentIndex));
      next := Some(Tetromino(nextIndex));
      x := SPAWN_X;
      y := SPAWN_Y;
    }

    method PauseResume()
      requires Valid()
      modifies this
      ensures Valid() && Snapshot() == Rules.PauseResume(old(Snapshot()))
    {
      paused := !paused;
    }

    method MoveLeft()
      requires Valid() && current.Some?
      modifies this
      ensures Valid() && Snapshot() == Rules.MoveLeft(old(Snapshot()))
    {
      ghost var r := Rules.MoveLeft(Snapshot());
      assert Inv(r) by { HandlersKeepInv(Snapshot()); }
      if x > 0 {
        var hit := CheckCollision(grid, current.value, x - 1, y);
        if !hit {
          x := x - 1;
        }
      }
      assert Snapshot() == r;
    }

    method MoveRight()
      requires Valid() && current.Some?
      modifies this
      ensures Valid() && Snapshot() == Rules.MoveRight(old(Snapshot()))
    {
      ghost var r := Rules.MoveRight(Snapshot());
      assert Inv(r) by { HandlersKeepInv(Snapshot()); }
      if x < WIDTH - 1 {
        var hit := CheckCollision(grid, current.value, x + 1, y);
        if !hit {
          x := x + 1;
        }
      }
      assert Snapshot() == r;
    }

    method MoveDown()
      requires Valid() && current.Some?
      modifies this
      ensures Valid() && Snapshot() == Rules.MoveDown(old(Snapshot()))
    {
      ghost var r := Rules.MoveDown(Snapshot());
      assert Inv(r) by { HandlersKeepInv(Snapshot()); }
      var hit := CheckCollision(grid, current.value, x, y + 1);
      if !hit {
        y := y + 1;
      }
      assert Snapshot() == r;
    }

    method Rotate()
      requires Valid() && current.Some?
      modifies this
      ensures Valid() && Snapshot() == RotatePiece(old(Snapshot()))
    {
      ghost var r := RotatePiece(Snapshot());
      assert Inv(r) by { HandlersKeepInv(Snapshot()); }
      var turned := Pieces.Rotate(current.value);
      var hit := CheckCollision(grid, turned, x, y);
      if !hit {
        current := Some(turned);
      }
      assert Snapshot() == r;
    }

    /** A key press while the game runs and is not paused goes to its
        handler; otherwise it is ignored. */
    method KeyDown(key: Key)
      requires Valid()
      modifies this
      ensures Valid() && Snapshot() == Rules.KeyDown(old(Snapshot()), key)
    {
      if started && !paused {
        match key
        case ArrowLeft => MoveLeft();
        case ArrowRight => MoveRight();
        case ArrowDown => MoveDown();
        case ArrowUp => Rotate();
        case KeyP => PauseResume();
        case OtherKey =>
      }
    }

    /** One timer tick; nextIndex draws the new next piece and spawnIndex
        the falling piece when no next piece was drawn yet. */
    method Tick(nextIndex: int, spawnIndex: int)
      requires Valid()
      requires 0 <= nextIndex < PIECE_COUNT && 0 <= spawnIndex < PIECE_COUNT
      modifies this
      ensures Valid() && Snapshot() == Rules.Tick(old(Snapshot()), nextIndex, spawnIndex)
    {
      ghost var s := Snapshot();
      ghost var r := Rules.Tick(s, nextIndex, spawnIndex);
      assert Inv(r) by { TickKeepsInv(s, nextIndex, spawnIndex); }
      if !paused && started {
        var newY := y + 1;
        var hit := CheckCollision(grid, current.value, x, newY);
        if hit {
          assert r == Rules.Settle(s, nextIndex, spawnIndex, false);
          Settle(nextIndex, spawnIndex);
        } else {
          y := newY;
        }
      }
      assert Snapshot() == r;
    }

    /** The settling half of a tick: the falling piece is stamped into the
        board at its row, full rows are cleared and scored, the next piece
        is promoted to the spawn position and a new next piece is drawn; a
        promoted piece that collides there ends the game. */
    method Settle(nextIndex: int, spawnIndex: int)
      requires HasPiece(Snapshot()) && !Collides(grid, current.value, x, y)
      requires 0 <= nextIndex < PIECE_COUNT && 0 <= spawnIndex < PIECE_COUNT
      modifies this
      ensures Snapshot() == Rules.Settle(old(Snapshot()), nextIndex, spawnIndex, false)
    {
      ghost var s := Snapshot();
      var block := current.value;
      FreeIsInBounds(grid, block, x, y);
      var updated := MergeBlock(grid, block, x, y);
      var cleaned, newScore := RemoveFullLines(updated, score);
      ClearedShaped(updated);
      var newBlock := if next.Some? then next.value else Tetromino(spawnIndex);
      var drawn := Some(Tetromino(nextIndex));
      var over := CheckCollision(cleaned, newBlock, SPAWN_X, SPAWN_Y);
      SettleOutcome(s, nextIndex, spawnIndex, cleaned, newBlock);
      if over {
        EndGame(drawn);
      } else {
        Respawn(cleaned, newScore, newBlock, drawn);
      }
    }

    /** Game over: the game stops with an empty board and a zero score, the
        row goes back to the top, and the falling piece and its column are
        left as they were. */
    method EndGame(drawn: Option<Block>)
      modifies this
      ensures Snapshot() == old(Snapshot()).(started := false, grid := EmptyGrid(), score := 0,
                                             y := SPAWN_Y, next := drawn)
    {
      started, grid, score, y, next := false, EmptyGrid(), 0, SPAWN_Y, drawn;
    }

    /** The game goes on: the cleared board and raised score are kept and
        the promoted piece falls from the spawn position. */
    method Respawn(cleaned: Grid, newScore: int, newBlock: Block, drawn: Option<Block>)
      modifies this
      ensures Snapshot() == old(Snapshot()).(grid := cleaned, score := newScore,
                                             current := Some(newBlock), next := drawn,
                                             x := SPAWN_X, y := SPAWN_Y)
    {
      grid, score, current, next, x, y := cleaned, newScore, Some(newBlock), drawn, SPAWN_X, SPAWN_Y;
    }
  }
}
