/** The game as a state record and one transition per player action or
    timer tick. Each transition is the specification that the methods of
    Engine.Game are proved to implement. */
module Rules {

  import opened Board
  import opened Pieces
  import opened Placement
  import opened LineClear

  datatype Option<T> = None | Some(value: T)

  /** The keys the game listens to; every other key is OtherKey. */
  datatype Key = ArrowLeft | ArrowRight | ArrowDown | ArrowUp | KeyP | OtherKey

  /** Where a promoted piece appears. */
  const SPAWN_X: int := 4
  const SPAWN_Y: int := 0

  /** Everything the engine keeps: the board, the falling piece and the one
      shown as next (None before the first game), the falling piece's
      column and row, the score, and the two mode flags. */
  datatype State = State(
    grid: Grid,
    current: Option<Block>,
    next: Option<Block>,
    x: int,
    y: int,
    score: int,
    started: bool,
    paused: bool)

  /** What holds in every state the game can reach: a well-formed board, a
      non-negative row, a score made of whole cleared lines, pieces in play
      that are well formed, a running game whose falling piece stands on
      free cells, and an empty board and zero score between games. */
  ghost predicate Inv(s: State) {
    WellFormed(s.grid) && 0 <= s.y &&
    0 <= s.score && s.score % LINE_POINTS == 0 &&
    (s.current.Some? ==> Proper(s.current.value)) &&
    (s.next.Some? ==> Proper(s.next.value)) &&
    (s.started ==> s.current.Some? && !Collides(s.grid, s.current.value, s.x, s.y)) &&
    (!s.started ==> s.grid == EmptyGrid() && s.score == 0)
  }

  /** The state before the first game. */
  function Initial(): (s: State)
    ensures Inv(s) && !s.started
  {
    State(EmptyGrid(), None, None, SPAWN_X, SPAWN_Y, 0, false, false)
  }

  /** A falling piece exists and the collision check can be asked about it. */
  ghost predicate HasPiece(s: State) {
    Shaped(s.grid) && 0 <= s.y && s.current.Some?
  }

  /** Left arrow: one column left when the piece is not at column 0 and is
      free there; nothing else changes. */
  ghost function MoveLeft(s: State): (r: State)
    requires HasPiece(s)
    ensures r == s.(x := r.x)
    ensures r.x == s.x - 1 || r.x == s.x
    ensures r.x == s.x - 1 <==> 0 < s.x && !Collides(s.grid, s.current.value, s.x - 1, s.y)
  {
    if 0 < s.x && !Collides(s.grid, s.current.value, s.x - 1, s.y) then s.(x := s.x - 1) else s
  }

  /** Right arrow: one column right when the piece's column is below
      WIDTH - 1 and the piece is free there; nothing else changes. */
  ghost function MoveRight(s: State): (r: State)
    requires HasPiece(s)
    ensures r == s.(x := r.x)
    ensures r.x == s.x + 1 || r.x == s.x
    ensures r.x == s.x + 1 <==> s.x < WIDTH - 1 && !Collides(s.grid, s.current.value, s.x + 1, s.y)
  {
    if s.x < WIDTH - 1 && !Collides(s.grid, s.current.value, s.x + 1, s.y) then s.(x := s.x + 1) else s
  }

  /** Down arrow: one row down when the piece is free there; nothing else
      changes, and a blocked piece does not settle. */
  ghost function MoveDown(s: State): (r: State)
    requires HasPiece(s)
    ensures r == s.(y := r.y)
    ensures r.y == s.y + 1 || r.y == s.y
    ensures r.y == s.y + 1 <==> !Collides(s.grid, s.current.value, s.x, s.y + 1)
  {
    if Collides(s.grid, s.current.value, s.x, s.y + 1) then s else s.(y := s.y + 1)
  }

  /** Up arrow: the piece turns a quarter clockwise in place when the turned
      piece is free at the same column and row; no other position is tried
      and nothing else changes. */
  ghost function RotatePiece(s: State): (r: State)
    requires HasPiece(s) && Rectangular(s.current.value.shape)
    ensures r == s.(current := r.current)
    ensures r.current == Some(Rotate(s.current.value)) || r.current == s.current
    ensures r.current != s.current <==>
      Rotate(s.current.value) != s.current.value && !Collides(s.grid, Rotate(s.current.value), s.x, s.y)
  {
    var turned := Rotate(s.current.value);
    if !Collides(s.grid, turned, s.x, s.y) then s.(current := Some(turned)) else s
  }

  /** The pause button (and the P key) flips the paused flag only. */
  ghost function PauseResume(s: State): (r: State)
    ensures r == s.(paused := r.paused) && r.paused != s.paused
  {
    s.(paused := !s.paused)
  }

  /** A key press: honoured only while a game runs and is not paused, and
      then dispatched to the handler of that key. */
  ghost function KeyDown(s: State, key: Key): (r: State)
    requires s.started && !s.paused ==> HasPiece(s) && Rectangular(s.current.value.shape)
    ensures !s.started || s.paused ==> r == s
    ensures key == OtherKey ==> r == s
    ensures r.grid == s.grid && r.score == s.score && r.started == s.started && r.next == s.next
  {
    if s.started && !s.paused then
      match key
      case ArrowLeft => MoveLeft(s)
      case ArrowRight => MoveRight(s)
      case ArrowDown => MoveDown(s)
      case ArrowUp => RotatePiece(s)
      case KeyP => PauseResume(s)
      case OtherKey => s
    else s
  }

  /** The Play button as the source writes it: the game runs, unpaused,
      with two freshly drawn pieces; the falling piece keeps whatever column
      and row the previous game left. */
  ghost function StartGameAsWritten(s: State, currentIndex: int, nextIndex: int): (r: State)
    requires 0 <= currentIndex < PIECE_COUNT && 0 <= nextIndex < PIECE_COUNT
    ensures r.started && !r.paused && r.x == s.x && r.y == s.y
    ensures r.grid == s.grid && r.score == s.score
    ensures r.current == Some(Tetromino(currentIndex)) && r.next == Some(Tetromino(nextIndex))
  {
    s.(started := true, paused := false,
       current := Some(Tetromino(currentIndex)), next := Some(Tetromino(nextIndex)))
  }

  /** The Play button, corrected: as StartGameAsWritten, and the first
      piece appears at the spawn position like every later piece. */
  ghost function StartGame(s: State, currentIndex: int, nextIndex: int): (r: State)
    requires 0 <= currentIndex < PIECE_COUNT && 0 <= nextIndex < PIECE_COUNT
    ensures r == StartGameAsWritten(s, currentIndex, nextIndex).(x := SPAWN_X, y := SPAWN_Y)
    ensures r.grid == s.grid && r.score == s.score
  {
    s.(started := true, paused := false,
       current := Some(Tetromino(currentIndex)), next := Some(Tetromino(nextIndex)),
       x := SPAWN_X, y := SPAWN_Y)
  }

  /** The falling piece of a running, unpaused game cannot go one row down. */
  ghost predicate Lands(s: State)
    requires s.started && !s.paused ==> HasPiece(s)
  {
    s.started && !s.paused && Collides(s.grid, s.current.value, s.x, s.y + 1)
  }

  /** The piece that becomes the falling one when the current one settles. */
  function Promoted(s: State, spawnIndex: int): (b: Block)
    requires 0 <= spawnIndex < PIECE_COUNT
    ensures s.next.Some? ==> b == s.next.value
  {
    if s.next.Some? then s.next.value else Tetromino(spawnIndex)
  }

  /** One timer tick. A paused or stopped game does not change. Otherwise the
      piece falls one row when it is free there, and settles when it is not.
      checkPreMerge chooses the board that the spawn check of Settle reads. */
  ghost function Gravity(s: State, nextIndex: int, spawnIndex: int, checkPreMerge: bool): (r: State)
    requires s.started && !s.paused ==> HasPiece(s)
    requires 0 <= nextIndex < PIECE_COUNT && 0 <= spawnIndex < PIECE_COUNT
  {
    if s.paused || !s.started then s
    else if !Collides(s.grid, s.current.value, s.x, s.y + 1) then s.(y := s.y + 1)
    else Settle(s, nextIndex, spawnIndex, checkPreMerge)
  }

  /** The falling piece settles: it is stamped into the board at its row,
      full rows are cleared and scored, the next piece becomes the falling
      one at the spawn position and a new next piece is drawn. When the
      promoted piece collides at the spawn position the game is over: it
      stops, with an empty board and a zero score. The spawn check reads
      the board from before the settling piece was stamped in when
      checkPreMerge holds (as the source does), and otherwise the board the
      new piece will fall into. */
  ghost function Settle(s: State, nextIndex: int, spawnIndex: int, checkPreMerge: bool): (r: State)
    requires HasPiece(s)
    requires 0 <= nextIndex < PIECE_COUNT && 0 <= spawnIndex < PIECE_COUNT
  {
    var merged := Merged(s.grid, s.current.value, s.x, s.y);
    var cleaned := Cleared(merged);
    var promoted := Promoted(s, spawnIndex);
    var drawn := Some(Tetromino(nextIndex));
    var checked := if checkPreMerge then s.grid else cleaned;
    if Collides(checked, promoted, SPAWN_X, SPAWN_Y) then
      s.(started := false, grid := EmptyGrid(), score := 0, y := SPAWN_Y, next := drawn)
    else
      s.(grid := cleaned, score := s.score + LINE_POINTS * FullRows(merged),
         current := Some(promoted), next := drawn, x := SPAWN_X, y := SPAWN_Y)
  }

  /** The two outcomes of a corrected settle, spelled out for a caller that
      has already computed the cleared board and the promoted piece. */
  lemma SettleOutcome(s: State, nextIndex: int, spawnIndex: int, cleaned: Grid, promoted: Block)
    requires HasPiece(s)
    requires 0 <= nextIndex < PIECE_COUNT && 0 <= spawnIndex < PIECE_COUNT
    requires cleaned == Cleared(Merged(s.grid, s.current.value, s.x, s.y))
    requires promoted == Promoted(s, spawnIndex) && Shaped(cleaned)
    ensures Collides(cleaned, promoted, SPAWN_X, SPAWN_Y) ==>
      Settle(s, nextIndex, spawnIndex, false) ==
        s.(started := false, grid := EmptyGrid(), score := 0, y := SPAWN_Y,
           next := Some(Tetromino(nextIndex)))
    ensures !Collides(cleaned, promoted, SPAWN_X, SPAWN_Y) ==>
      Settle(s, nextIndex, spawnIndex, false) ==
        s.(grid := cleaned,
           score := s.score + LINE_POINTS * FullRows(Merged(s.grid, s.current.value, s.x, s.y)),
           current := Some(promoted), next := Some(Tetromino(nextIndex)),
           x := SPAWN_X, y := SPAWN_Y)
  {
  }

  /** The tick as the source writes it: the promoted piece is checked
      against the board from before the settling piece was stamped in. */
  ghost function TickAsWritten(s: State, nextIndex: int, spawnIndex: int): (r: State)
    requires s.started && !s.paused ==> HasPiece(s)
    requires 0 <= nextIndex < PIECE_COUNT && 0 <= spawnIndex < PIECE_COUNT
    ensures s.paused || !s.started ==> r == s
    ensures s.started && !s.paused && !Lands(s) ==> r == s.(y := s.y + 1)
    ensures Lands(s) ==> r.y == SPAWN_Y && r.next == Some(Tetromino(nextIndex)) && !r.paused
    ensures Lands(s) ==>
      (r.started <==> !Collides(s.grid, Promoted(s, spawnIndex), SPAWN_X, SPAWN_Y))
    ensures Lands(s) && r.started ==>
      var merged := Merged(s.grid, s.current.value, s.x, s.y);
      r.grid == Cleared(merged) && r.score == s.score + LINE_POINTS * FullRows(merged) &&
      r.current == Some(Promoted(s, spawnIndex)) && r.x == SPAWN_X
    ensures Lands(s) && !r.started ==>
      r.grid == EmptyGrid() && r.score == 0 && r.x == s.x && r.current == s.current
  {
    Gravity(s, nextIndex, spawnIndex, true)
  }

  /** The tick, corrected: the promoted piece is checked against the board
      it will fall into. A settling tick either keeps the game running on
      the cleared board, the score raised by LINE_POINTS per cleared row
      and the new piece at the spawn position, or ends it with an empty
      board and a zero score, the column left as it was. */
  ghost function Tick(s: State, nextIndex: int, spawnIndex: int): (r: State)
    requires s.started && !s.paused ==> HasPiece(s)
    requires 0 <= nextIndex < PIECE_COUNT && 0 <= spawnIndex < PIECE_COUNT
    ensures s.paused || !s.started ==> r == s
    ensures s.started && !s.paused && !Lands(s) ==> r == s.(y := s.y + 1)
    ensures Lands(s) ==> r.y == SPAWN_Y && r.next == Some(Tetromino(nextIndex)) && !r.paused
    ensures Lands(s) ==>
      var merged := Merged(s.grid, s.current.value, s.x, s.y);
      (r.started <==> !Collides(Cleared(merged), Promoted(s, spawnIndex), SPAWN_X, SPAWN_Y))
    ensures Lands(s) && r.started ==>
      var merged := Merged(s.grid, s.current.value, s.x, s.y);
      r.grid == Cleared(merged) && r.score == s.score + LINE_POINTS * FullRows(merged) &&
      r.current == Some(Promoted(s, spawnIndex)) && r.x == SPAWN_X
    ensures Lands(s) && !r.started ==>
      r.grid == EmptyGrid() && r.score == 0 && r.x == s.x && r.current == s.current
  {
    Gravity(s, nextIndex, spawnIndex, false)
  }

  /** Every literal piece stands free at the spawn position of an empty board. */
  lemma SpawnFitsEmpty(i: int)
    requires 0 <= i < PIECE_COUNT
    ensures !Collides(EmptyGrid(), Tetromino(i), SPAWN_X, SPAWN_Y)
  {
    var b := Tetromino(i);
    forall r, c | Solid(b, r, c)
      ensures !Blocked(EmptyGrid(), SPAWN_X + c, SPAWN_Y + r)
    {
      assert |b.shape[r]| == |b.shape[0]|;
    }
  }

  /** Starting a game from a state between games keeps the invariant. */
  lemma StartGameKeepsInv(s: State, currentIndex: int, nextIndex: int)
    requires Inv(s) && !s.started
    requires 0 <= currentIndex < PIECE_COUNT && 0 <= nextIndex < PIECE_COUNT
    ensures Inv(StartGame(s, currentIndex, nextIndex))
  {
    SpawnFitsEmpty(currentIndex);
  }

  /** Every key handler and the pause toggle keep the invariant. */
  lemma HandlersKeepInv(s: State)
    requires Inv(s) && s.current.Some?
    ensures Inv(MoveLeft(s)) && Inv(MoveRight(s)) && Inv(MoveDown(s))
    ensures Inv(RotatePiece(s)) && Inv(PauseResume(s))
  {
    RotateProper(s.current.value);
  }

  lemma KeyDownKeepsInv(s: State, key: Key)
    requires Inv(s)
    ensures Inv(KeyDown(s, key))
  {
    if s.started && !s.paused {
      HandlersKeepInv(s);
    }
  }

  /** Adding whole lines keeps a score made of whole lines. */
  lemma WholeLines(score: int, k: nat)
    requires 0 <= score && score % LINE_POINTS == 0
    ensures 0 <= score + LINE_POINTS * k && (score + LINE_POINTS * k) % LINE_POINTS == 0
  {
    assert score + LINE_POINTS * k == LINE_POINTS * (score / LINE_POINTS + k);
  }

  /** The corrected tick keeps the invariant: in particular a running game's
      falling piece always stands on free cells of the board. */
  lemma TickKeepsInv(s: State, nextIndex: int, spawnIndex: int)
    requires Inv(s)
    requires 0 <= nextIndex < PIECE_COUNT && 0 <= spawnIndex < PIECE_COUNT
    ensures Inv(Tick(s, nextIndex, spawnIndex))
  {
    if Lands(s) {
      SettleKeepsInv(s, nextIndex, spawnIndex);
    }
  }

  /** The settling half of TickKeepsInv. */
  lemma SettleKeepsInv(s: State, nextIndex: int, spawnIndex: int)
    requires Inv(s) && s.started
    requires 0 <= nextIndex < PIECE_COUNT && 0 <= spawnIndex < PIECE_COUNT
    ensures Inv(Settle(s, nextIndex, spawnIndex, false))
  {
    var piece := s.current.value;
    var merged := Merged(s.grid, piece, s.x, s.y);
    var cleaned := Cleared(merged);
    assert WellFormed(cleaned) by {
      MergedWellFormed(s.grid, piece, s.x, s.y);
      ClearedShape(merged);
    }
    var promoted := Promoted(s, spawnIndex);
    var drawn := Some(Tetromino(nextIndex));
    if Collides(cleaned, promoted, SPAWN_X, SPAWN_Y) {
      var over := s.(started := false, grid := EmptyGrid(), score := 0, y := SPAWN_Y, next := drawn);
      assert Settle(s, nextIndex, spawnIndex, false) == over;
    } else {
      var score := s.score + LINE_POINTS * FullRows(merged);
      assert 0 <= score && score % LINE_POINTS == 0 by {
        WholeLines(s.score, FullRows(merged));
      }
      var running := s.(grid := cleaned, score := score, current := Some(promoted), next := drawn,
                     x := SPAWN_X, y := SPAWN_Y);
      assert Settle(s, nextIndex, spawnIndex, false) == running;
      RunningInv(running);
    }
  }

  /** The parts of Inv a freshly spawned running state has to meet. */
  lemma RunningInv(r: State)
    requires WellFormed(r.grid) && 0 <= r.y && 0 <= r.score && r.score % LINE_POINTS == 0
    requires r.current.Some? && Proper(r.current.value) && r.next.Some? && Proper(r.next.value)
    requires r.started && !Collides(r.grid, r.current.value, r.x, r.y)
    ensures Inv(r)
  {
  }
}
