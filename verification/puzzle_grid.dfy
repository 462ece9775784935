/** The move rules of the drag interface, on whole grid cells: where a dragged
    block may be shown, when its drop is committed, how a committed block move
    updates the store, how far the ball slides along one axis, and when a ball
    drop is committed. Pixel geometry is replaced by the target cell the
    pointer is over. */
module PuzzleGrid {
  import opened Options
  import opened Levels
  import opened Pathfinding
  import opened Store
  import opened Numbers

  // ---------------------------------------------------------------------------
  // Dragging a block

  /** Where a block dragged to the cell (rawRow, rawCol) is shown: it keeps its
      row when horizontal and its column otherwise, and each coordinate is
      brought into [0, grid size - block size] (to 0 when that range is empty). */
  function ClampDrag(block: Block, rawRow: int, rawCol: int, gridRows: int, gridCols: int): (pos: Cell)
    ensures block.orientation == Horizontal && 0 <= block.row <= gridRows - block.height ==> pos.row == block.row
    ensures block.orientation != Horizontal && 0 <= block.col <= gridCols - block.width ==> pos.col == block.col
    ensures block.orientation == Horizontal && 0 <= rawCol <= gridCols - block.width ==> pos.col == rawCol
    ensures block.orientation != Horizontal && 0 <= rawRow <= gridRows - block.height ==> pos.row == rawRow
    ensures 0 <= pos.row && 0 <= pos.col
    ensures gridRows >= block.height ==> pos.row + block.height <= gridRows
    ensures gridCols >= block.width ==> pos.col + block.width <= gridCols
  {
    var row := if block.orientation == Horizontal then block.row else rawRow;
    var col := if block.orientation == Horizontal then rawCol else block.col;
    Cell(Max(0, Min(gridRows - block.height, row)), Max(0, Min(gridCols - block.width, col)))
  }

  /** A clamped position of a block that fits the grid never fails the bounds
      half of the collision test: only another block can make the drop revert. */
  lemma ClampedDropCollidesOnlyWithBlocks(block: Block, rawRow: int, rawCol: int, allBlocks: seq<Block>, gridRows: int, gridCols: int)
    requires block.height <= gridRows && block.width <= gridCols
    ensures var pos := ClampDrag(block, rawRow, rawCol, gridRows, gridCols);
      CheckCollision(block, pos.row, pos.col, allBlocks, gridRows, gridCols) <==>
        exists i :: 0 <= i < |allBlocks| && allBlocks[i].id != block.id && RectsOverlap(block, pos.row, pos.col, allBlocks[i])
  {
  }

  /** What releasing a dragged block does. */
  datatype DropOutcome =
    | Moved(row: int, col: int)   // the move is reported to handleBlockMove
    | Unchanged                   // a legal drop on the block's own position, or no drag at all
    | Reverted                    // an illegal drop: the block is shown at its stored cell again

  /** The drop rule: commit when the placement is legal and differs from the
      stored position, revert when it is illegal. The ball plays no part. A
      block that is not movable never starts a drag, so it stays put. */
  function BlockDrop(block: Block, position: Cell, allBlocks: seq<Block>, gridRows: int, gridCols: int): (out: DropOutcome)
    ensures !block.movable ==> out == Unchanged
    ensures out.Moved? <==> && block.movable
                            && !CheckCollision(block, position.row, position.col, allBlocks, gridRows, gridCols)
                            && position != Cell(block.row, block.col)
    ensures out.Moved? ==> out == Moved(position.row, position.col)
    ensures out.Reverted? <==> block.movable && CheckCollision(block, position.row, position.col, allBlocks, gridRows, gridCols)
  {
    if !block.movable then Unchanged
    else if !CheckCollision(block, position.row, position.col, allBlocks, gridRows, gridCols) then
      if position.row != block.row || position.col != block.col then Moved(position.row, position.col) else Unchanged
    else Reverted
  }

  /** The cell the block is shown at once it is released: the new cell of a
      committed move, its stored cell otherwise. */
  function ShownAfterDrop(block: Block, position: Cell, out: DropOutcome): Cell {
    if out.Moved? then position else Cell(block.row, block.col)
  }

  /** After a drop the block is shown either at its stored cell or at a cell
      where it lies inside the grid and shares no cell with a block of another id. */
  lemma DropShowsLegalCell(block: Block, position: Cell, allBlocks: seq<Block>, gridRows: int, gridCols: int)
    ensures var shown := ShownAfterDrop(block, position, BlockDrop(block, position, allBlocks, gridRows, gridCols));
      || shown == Cell(block.row, block.col)
      || (&& 0 <= shown.row && shown.row + block.height <= gridRows
          && 0 <= shown.col && shown.col + block.width <= gridCols
          && forall i, c :: 0 <= i < |allBlocks| && allBlocks[i].id != block.id && InFootprint(Placed(block, shown.row, shown.col), c)
               ==> !InFootprint(allBlocks[i], c))
  {
  }

  // ---------------------------------------------------------------------------
  // Committing a block move

  /** The position of the first block with the given id (`blocks.find`). */
  function FindBlock(blocks: seq<Block>, id: string): (r: Option<nat>)
    ensures r.Some? ==> r.value < |blocks| && blocks[r.value].id == id
                        && forall j :: 0 <= j < r.value ==> blocks[j].id != id
    ensures r.None? ==> forall j :: 0 <= j < |blocks| ==> blocks[j].id != id
  {
    if |blocks| == 0 then None
    else if blocks[0].id == id then Some(0)
    else match FindBlock(blocks[1..], id)
      case None => None
      case Some(k) => Some(k + 1)
  }

  /** `blocks.map`: every block with the given id moved to (row, col). */
  function MoveBlock(blocks: seq<Block>, id: string, row: int, col: int): (r: seq<Block>)
    ensures |r| == |blocks|
    ensures forall i :: 0 <= i < |blocks| && blocks[i].id == id ==> r[i] == Placed(blocks[i], row, col)
    ensures forall i :: 0 <= i < |blocks| && blocks[i].id != id ==> r[i] == blocks[i]
  {
    if |blocks| == 0 then []
    else [if blocks[0].id == id then Placed(blocks[0], row, col) else blocks[0]] + MoveBlock(blocks[1..], id, row, col)
  }

  /** Moving a block keeps the ids in place, so the block can be found again. */
  lemma MoveBlockKeepsIds(blocks: seq<Block>, id: string, row: int, col: int)
    ensures forall i :: 0 <= i < |blocks| ==> MoveBlock(blocks, id, row, col)[i].id == blocks[i].id
    ensures FindBlock(MoveBlock(blocks, id, row, col), id) == FindBlock(blocks, id)
  {
    var moved := MoveBlock(blocks, id, row, col);
    assert forall i :: 0 <= i < |blocks| ==> moved[i].id == blocks[i].id;
  }

  /** Moving a block to where it already is changes nothing. */
  lemma MoveBlockInPlace(blocks: seq<Block>, id: string, k: nat)
    requires UniqueIds(blocks) && k < |blocks| && blocks[k].id == id
    ensures MoveBlock(blocks, id, blocks[k].row, blocks[k].col) == blocks
  {
    var moved := MoveBlock(blocks, id, blocks[k].row, blocks[k].col);
    forall i | 0 <= i < |blocks|
      ensures moved[i] == blocks[i]
    {
      if blocks[i].id == id {
        assert i == k;
      }
    }
  }

  /** handleBlockMove: the store's blocks with the block moved, and one move
      counted per cell of row and column distance from the first block with
      that id. An unknown id changes nothing. */
  method HandleBlockMove(game: MotionGame, blockId: string, newRow: int, newCol: int)
    modifies game`blocks, game`moves
    ensures FindBlock(old(game.blocks), blockId).None? ==>
      game.blocks == old(game.blocks) && game.moves == old(game.moves)
    ensures FindBlock(old(game.blocks), blockId).Some? ==>
      var moved := old(game.blocks)[FindBlock(old(game.blocks), blockId).value];
      && game.blocks == MoveBlock(old(game.blocks), blockId, newRow, newCol)
      && game.moves == old(game.moves) + Abs(newRow - moved.row) + Abs(newCol - moved.col)
  {
    var blocks := game.blocks;
    var found := FindBlock(blocks, blockId);
    if found.None? {
      return;
    }
    var movedBlock := blocks[found.value];
    var cellsMoved := Abs(newRow - movedBlock.row) + Abs(newCol - movedBlock.col);
    var updatedBlocks := MoveBlock(blocks, blockId, newRow, newCol);
    game.UpdateBlocks(updatedBlocks);
    ghost var movesBefore := game.moves;
    for i := 0 to cellsMoved
      invariant game.moves == movesBefore + i
      invariant game.blocks == updatedBlocks
    {
      game.IncrementMoves();
    }
  }

  // ---------------------------------------------------------------------------
  // Sliding the ball

  /** isCellOccupied: `allBlocks.some` over the footprints. */
  function IsCellOccupied(allBlocks: seq<Block>, row: int, col: int): (occupied: bool)
    ensures occupied <==> Covered(allBlocks, Cell(row, col))
  {
    if |allBlocks| == 0 then false
    else if InFootprint(allBlocks[0], Cell(row, col)) then true
    else
      var rest := IsCellOccupied(allBlocks[1..], row, col);
      assert Covered(allBlocks[1..], Cell(row, col)) ==> Covered(allBlocks, Cell(row, col)) by {
        if Covered(allBlocks[1..], Cell(row, col)) {
          var k :| 0 <= k < |allBlocks[1..]| && InFootprint(allBlocks[1..][k], Cell(row, col));
          assert allBlocks[k + 1] == allBlocks[1..][k];
        }
      }
      rest
  }

  /** The cell at coordinate `p` along the ball's line of travel. */
  function LaneCell(ball: Cell, direction: Orientation, p: int): Cell {
    if direction == Horizontal then Cell(ball.row, p) else Cell(p, ball.col)
  }

  /** The ball's coordinate along its line of travel. */
  function LaneCoord(c: Cell, direction: Orientation): int {
    if direction == Horizontal then c.col else c.row
  }

  /** The cell check of the slide: the coordinate along the line of travel is
      inside the grid and the cell is in no block's footprint. */
  predicate OpenOnLane(gridRows: int, gridCols: int, allBlocks: seq<Block>, ball: Cell, direction: Orientation, p: int) {
    && 0 <= p < (if direction == Horizontal then gridCols else gridRows)
    && !Covered(allBlocks, LaneCell(ball, direction, p))
  }

  /** `v` is where a slide from `from` towards `target` stops: it lies between
      them, every cell passed on the way is open, and it is the target or the
      next cell is not open. */
  ghost predicate SlideStops(gridRows: int, gridCols: int, allBlocks: seq<Block>, ball: Cell, direction: Orientation,
                             from: int, target: int, v: int) {
    if target > from then
      && from <= v <= target
      && (forall p :: from < p <= v ==> OpenOnLane(gridRows, gridCols, allBlocks, ball, direction, p))
      && (v == target || !OpenOnLane(gridRows, gridCols, allBlocks, ball, direction, v + 1))
    else
      && target <= v <= from
      && (forall p :: v <= p < from ==> OpenOnLane(gridRows, gridCols, allBlocks, ball, direction, p))
      && (v == target || !OpenOnLane(gridRows, gridCols, allBlocks, ball, direction, v - 1))
  }

  /** The stopping point of a slide is unique. */
  lemma SlideStopsUnique(gridRows: int, gridCols: int, allBlocks: seq<Block>, ball: Cell, direction: Orientation,
                         from: int, target: int, v: int, v': int)
    requires SlideStops(gridRows, gridCols, allBlocks, ball, direction, from, target, v)
    requires SlideStops(gridRows, gridCols, allBlocks, ball, direction, from, target, v')
    ensures v == v'
  {
  }

  /** The scan loop of findValidPosition along one axis: step one cell at a
      time from the ball towards the target and stop before the first cell
      that is outside the grid or occupied. */
  method Slide(gridRows: int, gridCols: int, allBlocks: seq<Block>, ball: Cell, direction: Orientation, target: int)
    returns (v: int)
    ensures SlideStops(gridRows, gridCols, allBlocks, ball, direction, LaneCoord(ball, direction), target, v)
  {
    var from := LaneCoord(ball, direction);
    var limit := if direction == Horizontal then gridCols else gridRows;
    var step := if target > from then 1 else -1;
    v := from;
    var p := from + step;
    while if step > 0 then p <= target else p >= target
      invariant p == v + step
      invariant step > 0 ==> target > from && from <= v <= target
      invariant step < 0 ==> target <= from && target <= v <= from
      invariant step > 0 ==> forall q :: from < q <= v ==> OpenOnLane(gridRows, gridCols, allBlocks, ball, direction, q)
      invariant step < 0 ==> forall q :: v <= q < from ==> OpenOnLane(gridRows, gridCols, allBlocks, ball, direction, q)
      decreases if step > 0 then target - p + 1 else p - target + 1
    {
      var cell := LaneCell(ball, direction, p);
      if p < 0 || p >= limit || IsCellOccupied(allBlocks, cell.row, cell.col) {
        break;
      }
      v := p;
      p := p + step;
    }
  }

  /** findValidPosition: the ball keeps its coordinate across the direction
      of travel and slides along it from its cell towards the target. */
  method FindValidPosition(gridRows: int, gridCols: int, allBlocks: seq<Block>, ball: Cell,
                           target: Cell, direction: Orientation)
    returns (pos: Cell)
    ensures direction == Horizontal ==> pos.row == ball.row
    ensures direction == Vertical ==> pos.col == ball.col
    ensures SlideStops(gridRows, gridCols, allBlocks, ball, direction, LaneCoord(ball, direction),
                       LaneCoord(target, direction), LaneCoord(pos, direction))
    ensures LaneCoord(target, direction) == LaneCoord(ball, direction) ==> pos == ball
  {
    var v := Slide(gridRows, gridCols, allBlocks, ball, direction, LaneCoord(target, direction));
    pos := LaneCell(ball, direction, v);
  }

  /** A slide from a cell inside the grid ends on a cell the ball can be
      dropped on: its own cell or a free cell of the grid. Passing through
      every cell in between is a walk of the ball in the sense of the search. */
  lemma {:induction false} SlideIsWalk(g: GridState, ball: Cell, direction: Orientation, from: int, target: int, v: int)
    requires InGrid(g, ball) && from == LaneCoord(ball, direction)
    requires SlideStops(g.rows, g.cols, g.blocks, ball, direction, from, target, v)
    ensures v == from || Free(g, LaneCell(ball, direction, v))
    ensures IsWalk(g, ball, LaneWalk(ball, direction, from, v))
    ensures Last(LaneWalk(ball, direction, from, v)) == LaneCell(ball, direction, v)
    decreases if v < from then from - v else v - from
  {
    var w := LaneWalk(ball, direction, from, v);
    if v == from {
      assert LaneCell(ball, direction, from) == ball;
    } else {
      var v' := if v > from then v - 1 else v + 1;
      var t' := if v > from then v - 1 else v + 1;
      assert SlideStops(g.rows, g.cols, g.blocks, ball, direction, from, t', v') by {
        if target > from {
          assert forall p :: from < p <= v' ==> OpenOnLane(g.rows, g.cols, g.blocks, ball, direction, p);
        }
      }
      SlideIsWalk(g, ball, direction, from, t', v');
      assert OpenOnLane(g.rows, g.cols, g.blocks, ball, direction, v);
      assert w == LaneWalk(ball, direction, from, v') + [LaneCell(ball, direction, v)];
    }
  }

  /** The cells from the ball's coordinate `from` to `v`, one step at a time. */
  function LaneWalk(ball: Cell, direction: Orientation, from: int, v: int): (w: seq<Cell>)
    ensures |w| == Abs(v - from) + 1
    decreases Abs(v - from)
  {
    if v == from then [LaneCell(ball, direction, from)]
    else if v > from then LaneWalk(ball, direction, from, v - 1) + [LaneCell(ball, direction, v)]
    else LaneWalk(ball, direction, from, v + 1) + [LaneCell(ball, direction, v)]
  }

  /** The target cell of a ball drag once its direction is fixed: the raw
      cell under the pointer along that direction, brought into the grid, and
      the ball's own coordinate across it. */
  function BallTarget(ball: Cell, raw: Cell, direction: Orientation, gridRows: int, gridCols: int): (target: Cell)
    ensures direction == Horizontal ==> target.row == ball.row
    ensures direction == Vertical ==> target.col == ball.col
    ensures gridRows >= 1 && gridCols >= 1 ==> 0 <= LaneCoord(target, direction) < (if direction == Horizontal then gridCols else gridRows)
    ensures 0 <= LaneCoord(raw, direction) < (if direction == Horizontal then gridCols else gridRows) ==>
      LaneCoord(target, direction) == LaneCoord(raw, direction)
  {
    if direction == Horizontal then Cell(ball.row, Max(0, Min(gridCols - 1, raw.col)))
    else Cell(Max(0, Min(gridRows - 1, raw.row)), ball.col)
  }

  /** handleMove of the ball: where the ball is shown while dragged in a fixed
      direction. From a ball inside the grid it is the ball's own cell or a
      free cell on its line, reached by a walk through free cells no longer
      than the distance to the clamped target. */
  method BallDragPosition(g: GridState, ball: Cell, raw: Cell, direction: Orientation) returns (pos: Cell)
    requires InGrid(g, ball)
    ensures pos == LaneCell(ball, direction, LaneCoord(pos, direction))
    ensures pos == ball || Free(g, pos)
    ensures Abs(LaneCoord(pos, direction) - LaneCoord(ball, direction)) <=
            Abs(LaneCoord(BallTarget(ball, raw, direction, g.rows, g.cols), direction) - LaneCoord(ball, direction))
    ensures exists w :: IsWalk(g, ball, w) && Last(w) == pos
  {
    var target := BallTarget(ball, raw, direction, g.rows, g.cols);
    pos := FindValidPosition(g.rows, g.cols, g.blocks, ball, target, direction);
    var from, v := LaneCoord(ball, direction), LaneCoord(pos, direction);
    assert pos == LaneCell(ball, direction, v);
    SlideIsWalk(g, ball, direction, from, LaneCoord(target, direction), v);
    if v == from {
      assert pos == ball;
    }
  }

  // ---------------------------------------------------------------------------
  // Dropping the ball

  /** handleEnd of the ball: a drop on a different, unoccupied cell counts one
      move per cell of row and column distance and becomes the new ball
      position; any other drop leaves the store and the ball as they were. */
  method HandleBallDrop(game: MotionGame, allBlocks: seq<Block>, ball: Cell, position: Cell)
    returns (newBall: Cell)
    modifies game`moves
    ensures position != ball && !Covered(allBlocks, position) ==>
      newBall == position && game.moves == old(game.moves) + Abs(position.row - ball.row) + Abs(position.col - ball.col)
    ensures !(position != ball && !Covered(allBlocks, position)) ==>
      newBall == ball && game.moves == old(game.moves)
  {
    newBall := ball;
    if position.row != ball.row || position.col != ball.col {
      if !IsCellOccupied(allBlocks, position.row, position.col) {
        var cellsMoved := Abs(position.row - ball.row) + Abs(position.col - ball.col);
        ghost var movesBefore := game.moves;
        for i := 0 to cellsMoved
          invariant game.moves == movesBefore + i
        {
          game.IncrementMoves();
        }
        newBall := position;
      }
    }
  }

  /** A position found by the slide from a ball inside the grid is either the
      ball's own cell, which the drop ignores, or a cell the drop commits, and
      then the moves added equal the length of the slide. */
  lemma SlideDropCommits(g: GridState, ball: Cell, direction: Orientation, target: int, v: int)
    requires InGrid(g, ball)
    requires SlideStops(g.rows, g.cols, g.blocks, ball, direction, LaneCoord(ball, direction), target, v)
    ensures var pos := LaneCell(ball, direction, v);
      pos == ball || (!Covered(g.blocks, pos) && Abs(pos.row - ball.row) + Abs(pos.col - ball.col) == Abs(v - LaneCoord(ball, direction)))
  {
    SlideIsWalk(g, ball, direction, LaneCoord(ball, direction), target, v);
  }
}
