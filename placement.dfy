/** Where a piece may stand on the board: the collision check, stamping a
    settled piece into the board, and the landing row shown as a preview. */
module Placement {

  import opened Board
  import opened Pieces

  /** Board position (yPos, xPos) cannot take a piece cell: it is left of
      the left wall, right of the right wall, below the floor, or occupied. */
  predicate Blocked(g: Grid, xPos: int, yPos: int)
    requires Shaped(g) && 0 <= yPos
  {
    xPos < 0 || xPos >= WIDTH || yPos >= HEIGHT || g[yPos][xPos] != 0
  }

  /** Some filled cell of b, placed with its top-left corner at column ox
      and row oy, lands on a blocked position. Rows above the board are not
      part of the domain: the source reads grid[yPos] for them. */
  ghost predicate Collides(g: Grid, b: Block, ox: int, oy: int)
    requires Shaped(g) && 0 <= oy
  {
    exists r, c :: Solid(b, r, c) && Blocked(g, ox + c, oy + r)
  }

  /** Every filled cell of b placed at (ox, oy) lies on the board. */
  ghost predicate InBounds(b: Block, ox: int, oy: int) {
    forall r, c :: Solid(b, r, c) ==> 0 <= ox + c < WIDTH && 0 <= oy + r < HEIGHT
  }

  /** Board cell (gr, gc) lies under a filled cell of b placed at (ox, oy). */
  predicate Covers(b: Block, ox: int, oy: int, gr: int, gc: int) {
    Solid(b, gr - oy, gc - ox)
  }

  /** The board with b stamped in at (ox, oy): cells under a filled piece
      cell take the piece colour, all others keep their value. */
  function Merged(g: Grid, b: Block, ox: int, oy: int): (m: Grid)
    requires Shaped(g)
  {
    seq(HEIGHT, gr requires 0 <= gr < HEIGHT =>
      seq(WIDTH, gc requires 0 <= gc < WIDTH =>
        if Covers(b, ox, oy, gr, gc) then b.color else g[gr][gc]))
  }

  /** Decides whether b may stand at (ox, oy), scanning the shape row by
      row and stopping at the first filled cell that lands on a blocked
      position. */
  method CheckCollision(g: Grid, b: Block, ox: int, oy: int) returns (hit: bool)
    requires Shaped(g) && 0 <= oy
    ensures hit == Collides(g, b, ox, oy)
  {
    var row := 0;
    while row < |b.shape|
      invariant 0 <= row <= |b.shape|
      invariant forall r, c :: 0 <= r < row && Solid(b, r, c) ==> !Blocked(g, ox + c, oy + r)
    {
      var col := 0;
      while col < |b.shape[row]|
        invariant 0 <= col <= |b.shape[row]|
        invariant forall r, c :: 0 <= r < row && Solid(b, r, c) ==> !Blocked(g, ox + c, oy + r)
        invariant forall c :: 0 <= c < col && Solid(b, row, c) ==> !Blocked(g, ox + c, oy + row)
      {
        if b.shape[row][col] != 0 {
          var xPos := ox + col;
          var yPos := oy + row;
          if xPos < 0 || xPos >= WIDTH || yPos >= HEIGHT || g[yPos][xPos] != 0 {
            assert Solid(b, row, col) && Blocked(g, ox + col, oy + row);
            return true;
          }
        }
        col := col + 1;
      }
      row := row + 1;
    }
    return false;
  }

  /** A piece that does not collide lies wholly on the board, on empty cells. */
  lemma FreeIsInBounds(g: Grid, b: Block, ox: int, oy: int)
    requires Shaped(g) && 0 <= oy && !Collides(g, b, ox, oy)
    ensures InBounds(b, ox, oy)
    ensures forall r, c :: Solid(b, r, c) ==> g[oy + r][ox + c] == 0
  {
    forall r, c | Solid(b, r, c)
      ensures 0 <= ox + c < WIDTH && 0 <= oy + r < HEIGHT && g[oy + r][ox + c] == 0
    {
      assert !Blocked(g, ox + c, oy + r);
    }
  }

  /** A piece with a filled cell that is free at row oy has oy above the
      floor: every probe at or below the floor collides, which is what ends
      the drop preview's search. */
  lemma FreeAboveFloor(g: Grid, b: Block, ox: int, oy: int)
    requires Shaped(g) && HasCell(b) && 0 <= oy && !Collides(g, b, ox, oy)
    ensures oy < HEIGHT
  {
    var r, c :| Solid(b, r, c);
    assert !Blocked(g, ox + c, oy + r);
  }

  /** Stamps b into a copy of the board at (ox, oy); the board passed in is
      a value and is left as it was. */
  method MergeBlock(g: Grid, b: Block, ox: int, oy: int) returns (newGrid: Grid)
    requires Shaped(g) && InBounds(b, ox, oy)
    ensures newGrid == Merged(g, b, ox, oy)
  {
    newGrid := g;
    var row := 0;
    while row < |b.shape|
      invariant 0 <= row <= |b.shape|
      invariant Shaped(newGrid)
      invariant forall gr, gc :: 0 <= gr < HEIGHT && 0 <= gc < WIDTH ==>
        newGrid[gr][gc] == if Covers(b, ox, oy, gr, gc) && gr - oy < row then b.color else g[gr][gc]
    {
      var col := 0;
      while col < |b.shape[row]|
        invariant 0 <= col <= |b.shape[row]|
        invariant Shaped(newGrid)
        invariant forall gr, gc :: 0 <= gr < HEIGHT && 0 <= gc < WIDTH ==>
          newGrid[gr][gc] ==
            if Covers(b, ox, oy, gr, gc) && (gr - oy < row || (gr - oy == row && gc - ox < col))
            then b.color else g[gr][gc]
      {
        if b.shape[row][col] != 0 {
          assert Solid(b, row, col);
          newGrid := newGrid[oy + row := newGrid[oy + row][ox + col := b.color]];
        }
        col := col + 1;
      }
      row := row + 1;
    }
    MergedAt(g, b, ox, oy, newGrid);
  }

  /** A shaped grid that agrees cell by cell with Merged is Merged. */
  lemma MergedAt(g: Grid, b: Block, ox: int, oy: int, h: Grid)
    requires Shaped(g) && Shaped(h)
    requires forall gr, gc :: 0 <= gr < HEIGHT && 0 <= gc < WIDTH ==>
      h[gr][gc] == if Covers(b, ox, oy, gr, gc) then b.color else g[gr][gc]
    ensures h == Merged(g, b, ox, oy)
  {
    var m := Merged(g, b, ox, oy);
    forall gr | 0 <= gr < HEIGHT
      ensures h[gr] == m[gr]
    {
      assert |h[gr]| == |m[gr]|;
    }
  }

  /** Stamping a piece of colour 1..MAX_COLOR keeps the board well formed
      and leaves every cell outside the piece's footprint as it was. */
  lemma MergedWellFormed(g: Grid, b: Block, ox: int, oy: int)
    requires WellFormed(g) && 1 <= b.color <= MAX_COLOR
    ensures WellFormed(Merged(g, b, ox, oy))
    ensures forall gr, gc :: 0 <= gr < HEIGHT && 0 <= gc < WIDTH && !Covers(b, ox, oy, gr, gc) ==>
      Merged(g, b, ox, oy)[gr][gc] == g[gr][gc]
  {
  }

  /** Once stamped, the piece occupies its own footprint: at the same place
      it collides. */
  lemma MergedOccupies(g: Grid, b: Block, ox: int, oy: int)
    requires Shaped(g) && 0 <= oy && HasCell(b) && InBounds(b, ox, oy) && b.color != 0
    ensures Collides(Merged(g, b, ox, oy), b, ox, oy)
  {
    var r, c :| Solid(b, r, c);
    assert Covers(b, ox, oy, oy + r, ox + c);
    assert Blocked(Merged(g, b, ox, oy), ox + c, oy + r);
  }

  /** The landing row of the drop preview: starting from row 0, the largest
      d such that the piece is free at every row 1..d, the piece colliding
      at row d + 1. */
  method GetDropPosition(g: Grid, b: Block, startX: int) returns (dropY: int)
    requires Shaped(g) && HasCell(b)
    ensures 0 <= dropY < HEIGHT
    ensures forall d :: 1 <= d <= dropY ==> !Collides(g, b, startX, d)
    ensures Collides(g, b, startX, dropY + 1)
  {
    dropY := 0;
    var hit := CheckCollision(g, b, startX, dropY + 1);
    while !hit
      invariant 0 <= dropY < HEIGHT
      invariant forall d :: 1 <= d <= dropY ==> !Collides(g, b, startX, d)
      invariant hit == Collides(g, b, startX, dropY + 1)
      decreases HEIGHT - dropY
    {
      FreeAboveFloor(g, b, startX, dropY + 1);
      dropY := dropY + 1;
      hit := CheckCollision(g, b, startX, dropY + 1);
    }
  }
}
