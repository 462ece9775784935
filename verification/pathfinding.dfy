/** Occupancy, collision and reachability on the puzzle grid: the occupied-cell
    set built from block footprints, the placement test for a dragged block, and
    the breadth-first search that decides whether the ball can reach its target
    and returns a shortest path. */
module Pathfinding {
  import opened Levels

  /** The grid a search runs on: its size and the blocks lying on it. */
  datatype GridState = GridState(rows: int, cols: int, blocks: seq<Block>)

  /** A unit move; the search tries them in the order up, down, left, right. */
  datatype Direction = Direction(dr: int, dc: int)

  const Directions: seq<Direction> :=
    [Direction(-1, 0), Direction(1, 0), Direction(0, -1), Direction(0, 1)]

  function Step(c: Cell, d: Direction): Cell {
    Cell(c.row + d.dr, c.col + d.dc)
  }

  function Abs(x: int): nat {
    if x < 0 then -x else x
  }

  /** `a` and `b` differ by exactly one unit step in one of the four directions. */
  predicate Adjacent(a: Cell, b: Cell) {
    Abs(a.row - b.row) + Abs(a.col - b.col) == 1
  }

  predicate InGrid(g: GridState, c: Cell) {
    0 <= c.row < g.rows && 0 <= c.col < g.cols
  }

  /** A cell the ball may step onto: inside the grid and in no block's footprint. */
  predicate Free(g: GridState, c: Cell) {
    InGrid(g, c) && !Covered(g.blocks, c)
  }

  function Last(w: seq<Cell>): Cell
    requires |w| > 0
  {
    w[|w| - 1]
  }

  /** A walk of the ball from `start`: unit steps, each onto a free cell. The
      start cell itself is not required to be free. Cells may repeat. */
  predicate IsWalk(g: GridState, start: Cell, w: seq<Cell>) {
    && |w| >= 1
    && w[0] == start
    && forall i :: 1 <= i < |w| ==> Adjacent(w[i - 1], w[i]) && Free(g, w[i])
  }

  /** No element occurs twice. */
  predicate Distinct<T(==)>(w: seq<T>) {
    forall i, j :: 0 <= i < j < |w| ==> w[i] != w[j]
  }

  ghost function GridCells(g: GridState): set<Cell> {
    set r, c | 0 <= r < g.rows && 0 <= c < g.cols :: Cell(r, c)
  }

  // ---------------------------------------------------------------------------
  // Occupied cells

  lemma CoveredPrefixStep(blocks: seq<Block>, i: int, c: Cell)
    requires 0 <= i < |blocks|
    ensures Covered(blocks[..i + 1], c) <==> Covered(blocks[..i], c) || InFootprint(blocks[i], c)
  {
    if Covered(blocks[..i + 1], c) {
      var k :| 0 <= k < i + 1 && InFootprint(blocks[..i + 1][k], c);
      if k < i {
        assert blocks[..i][k] == blocks[k];
      }
    }
    if Covered(blocks[..i], c) {
      var k :| 0 <= k < i && InFootprint(blocks[..i][k], c);
      assert blocks[..i + 1][k] == blocks[k];
    }
    if InFootprint(blocks[i], c) {
      assert blocks[..i + 1][i] == blocks[i];
    }
  }

  /** The set of cells covered by some block, filled footprint by footprint,
      row by row. */
  method OccupiedCells(blocks: seq<Block>) returns (occupied: set<Cell>)
    ensures forall c :: c in occupied <==> Covered(blocks, c)
  {
    occupied := {};
    var i := 0;
    while i < |blocks|
      invariant 0 <= i <= |blocks|
      invariant forall c :: c in occupied <==> Covered(blocks[..i], c)
    {
      var b := blocks[i];
      var r := b.row;
      while r < b.row + b.height
        invariant b.row <= r
        invariant forall c :: c in occupied <==> Covered(blocks[..i], c) || (InFootprint(b, c) && c.row < r)
      {
        var col := b.col;
        while col < b.col + b.width
          invariant b.col <= col
          invariant forall c :: c in occupied <==>
            Covered(blocks[..i], c) || (InFootprint(b, c) && (c.row < r || (c.row == r && c.col < col)))
        {
          occupied := occupied + {Cell(r, col)};
          col := col + 1;
        }
        r := r + 1;
      }
      forall c ensures c in occupied <==> Covered(blocks[..i + 1], c) {
        CoveredPrefixStep(blocks, i, c);
      }
      i := i + 1;
    }
    assert blocks[..|blocks|] == blocks;
  }

  // ---------------------------------------------------------------------------
  // Collision test for a dragged block

  /** `block` moved to (row, col). */
  function Placed(block: Block, row: int, col: int): Block {
    block.(row := row, col := col)
  }

  /** The rectangle of `block` at (row, col) and that of `other` overlap
      (rectangles that only share an edge do not). */
  predicate RectsOverlap(block: Block, row: int, col: int, other: Block) {
    && row < other.row + other.height
    && row + block.height > other.row
    && col < other.col + other.width
    && col + block.width > other.col
  }

  ghost predicate SharesCell(a: Block, b: Block) {
    exists c :: InFootprint(a, c) && InFootprint(b, c)
  }

  /** The scan over the blocks whose id differs from `block`'s, stopping at the
      first overlap. */
  function OverlapsOther(block: Block, row: int, col: int, blocks: seq<Block>): (hit: bool)
    ensures hit <==> exists i :: 0 <= i < |blocks| && blocks[i].id != block.id && RectsOverlap(block, row, col, blocks[i])
  {
    if |blocks| == 0 then false
    else if blocks[0].id != block.id && RectsOverlap(block, row, col, blocks[0]) then true
    else OverlapsOther(block, row, col, blocks[1..])
  }

  /** checkCollision: true when placing `block` with its top-left cell at
      (newRow, newCol) is illegal. A legal placement lies inside the grid and
      shares no cell with any block of a different id. */
  function CheckCollision(block: Block, newRow: int, newCol: int, allBlocks: seq<Block>, gridRows: int, gridCols: int): (collides: bool)
    ensures !collides ==> 0 <= newRow && newRow + block.height <= gridRows && 0 <= newCol && newCol + block.width <= gridCols
    ensures !collides ==> forall i, c :: 0 <= i < |allBlocks| && allBlocks[i].id != block.id && InFootprint(Placed(block, newRow, newCol), c) ==> !InFootprint(allBlocks[i], c)
  {
    if newRow < 0 || newCol < 0 then true
    else if newRow + block.height > gridRows || newCol + block.width > gridCols then true
    else OverlapsOther(block, newRow, newCol, allBlocks)
  }

  /** For blocks of positive size, overlapping rectangles are exactly those
      that share a cell. */
  lemma RectsOverlapIffSharesCell(block: Block, row: int, col: int, other: Block)
    requires block.width >= 1 && block.height >= 1 && other.width >= 1 && other.height >= 1
    ensures RectsOverlap(block, row, col, other) <==> SharesCell(Placed(block, row, col), other)
  {
    if RectsOverlap(block, row, col, other) {
      var c := Cell(if row < other.row then other.row else row, if col < other.col then other.col else col);
      assert InFootprint(Placed(block, row, col), c) && InFootprint(other, c);
    }
  }

  /** The exact characterisation of checkCollision for blocks of positive size:
      no collision if and only if the placed footprint is inside the grid and
      shares no cell with any block of a different id. */
  lemma CheckCollisionExact(block: Block, newRow: int, newCol: int, allBlocks: seq<Block>, gridRows: int, gridCols: int)
    requires block.width >= 1 && block.height >= 1
    requires forall i :: 0 <= i < |allBlocks| ==> allBlocks[i].width >= 1 && allBlocks[i].height >= 1
    ensures !CheckCollision(block, newRow, newCol, allBlocks, gridRows, gridCols) <==>
      && 0 <= newRow && newRow + block.height <= gridRows
      && 0 <= newCol && newCol + block.width <= gridCols
      && forall i :: 0 <= i < |allBlocks| && allBlocks[i].id != block.id ==> !SharesCell(Placed(block, newRow, newCol), allBlocks[i])
  {
    forall i | 0 <= i < |allBlocks| {
      RectsOverlapIffSharesCell(block, newRow, newCol, allBlocks[i]);
    }
  }

  // ---------------------------------------------------------------------------
  // Breadth-first search

  datatype QueueEntry = QueueEntry(cell: Cell, path: seq<Cell>)

  datatype SearchResult = SearchResult(isReachable: bool, path: seq<Cell>)

  lemma StepAdjacent(c: Cell, k: int)
    requires 0 <= k < 4
    ensures Adjacent(c, Step(c, Directions[k]))
  {
  }

  /** Every neighbour of `c` is one of the four steps the search tries. */
  lemma AdjacentIsStep(c: Cell, n: Cell)
    requires Adjacent(c, n)
    ensures exists k :: 0 <= k < 4 && n == Step(c, Directions[k])
  {
    if n.row == c.row - 1 {
      assert n == Step(c, Directions[0]);
    } else if n.row == c.row + 1 {
      assert n == Step(c, Directions[1]);
    } else if n.col == c.col - 1 {
      assert n == Step(c, Directions[2]);
    } else {
      assert n == Step(c, Directions[3]);
    }
  }

  // The proof of the search keeps, besides the queue and the visited set, two
  // ghost values: the set of processed cells (dequeued and expanded) and the
  // distance recorded for each visited cell.

  ghost predicate Bookkeeping(start: Cell, end: Cell, visited: set<Cell>, processed: set<Cell>, dist: map<Cell, nat>) {
    start in visited && visited == dist.Keys && processed <= visited && end !in processed
  }

  /** A queue entry carries a walk to its cell without repeated cells, all of
      them visited, and its length is the recorded distance of the cell. */
  ghost predicate EntryOk(g: GridState, start: Cell, visited: set<Cell>, dist: map<Cell, nat>, e: QueueEntry) {
    && IsWalk(g, start, e.path) && Last(e.path) == e.cell && Distinct(e.path)
    && (forall k :: 0 <= k < |e.path| ==> e.path[k] in visited)
    && e.cell in dist && dist[e.cell] == |e.path| - 1
  }

  ghost predicate QueueOk(g: GridState, start: Cell, visited: set<Cell>, dist: map<Cell, nat>, queue: seq<QueueEntry>) {
    forall i :: 0 <= i < |queue| ==> EntryOk(g, start, visited, dist, queue[i])
  }

  /** Paths in the queue never get shorter from front to back ... */
  ghost predicate Sorted(queue: seq<QueueEntry>) {
    forall i, j :: 0 <= i <= j < |queue| ==> |queue[i].path| <= |queue[j].path|
  }

  /** ... and span at most two consecutive lengths. */
  ghost predicate Within(queue: seq<QueueEntry>, lo: int) {
    forall i :: 0 <= i < |queue| ==> lo <= |queue[i].path| <= lo + 1
  }

  ghost predicate InQueue(queue: seq<QueueEntry>, c: Cell) {
    exists i :: 0 <= i < |queue| && queue[i].cell == c
  }

  /** Every visited cell that is not processed waits in the queue. */
  ghost predicate Frontier(queue: seq<QueueEntry>, visited: set<Cell>, processed: set<Cell>) {
    forall c :: c in visited && c !in processed ==> InQueue(queue, c)
  }

  /** Every free neighbour of a processed cell has been visited. */
  ghost predicate Closed(g: GridState, processed: set<Cell>, visited: set<Cell>) {
    forall u, n :: u in processed && Adjacent(u, n) && Free(g, n) ==> n in visited
  }

  /** No walk reaches a visited cell in fewer steps than its recorded distance. */
  ghost predicate DistIsLowerBound(g: GridState, start: Cell, dist: map<Cell, nat>) {
    forall w :: IsWalk(g, start, w) && Last(w) in dist ==> |w| - 1 >= dist[Last(w)]
  }

  /** The first `k` neighbours of `c`, when free, are visited. */
  ghost predicate Tried(g: GridState, c: Cell, visited: set<Cell>, k: int) {
    forall j :: 0 <= j < k && j < 4 && Free(g, Step(c, Directions[j])) ==> Step(c, Directions[j]) in visited
  }

  /** The state of the search between two dequeues. */
  ghost predicate SearchInvariant(g: GridState, start: Cell, end: Cell, queue: seq<QueueEntry>,
                                  visited: set<Cell>, processed: set<Cell>, dist: map<Cell, nat>) {
    && Bookkeeping(start, end, visited, processed, dist)
    && QueueOk(g, start, visited, dist, queue)
    && Sorted(queue)
    && (|queue| > 0 ==> Within(queue, |queue[0].path|))
    && Frontier(queue, visited, processed)
    && Closed(g, processed, visited)
    && DistIsLowerBound(g, start, dist)
  }

  /** The state of the search while the neighbours of `current` (taken off the
      queue, not yet processed) are examined; `k` of the four are done. */
  ghost predicate ExpandInvariant(g: GridState, start: Cell, end: Cell, current: QueueEntry, queue: seq<QueueEntry>,
                                  visited: set<Cell>, processed: set<Cell>, dist: map<Cell, nat>, k: int) {
    && Bookkeeping(start, end, visited, processed, dist)
    && current.cell != end
    && EntryOk(g, start, visited, dist, current)
    && QueueOk(g, start, visited, dist, queue)
    && Sorted(queue)
    && Within(queue, |current.path|)
    && Frontier(queue, visited, processed + {current.cell})
    && Closed(g, processed, visited)
    && DistIsLowerBound(g, start, dist)
    && Tried(g, current.cell, visited, k)
  }

  /** The key step of the shortest-path argument: if every processed cell has
      all its free neighbours visited and every unprocessed visited cell has
      distance at least `m`, then a walk that ends outside the visited set takes
      more than `m` steps. */
  lemma {:induction false} ExitBound(g: GridState, start: Cell, visited: set<Cell>, processed: set<Cell>,
                                     dist: map<Cell, nat>, m: int, w: seq<Cell>)
    requires start in visited && visited == dist.Keys && processed <= visited
    requires Closed(g, processed, visited)
    requires forall c :: c in visited && c !in processed ==> dist[c] >= m
    requires DistIsLowerBound(g, start, dist)
    requires IsWalk(g, start, w) && Last(w) !in visited
    ensures |w| - 1 >= m + 1
    decreases |w|
  {
    var prefix := w[..|w| - 1];
    assert IsWalk(g, start, prefix);
    var prev := Last(prefix);
    assert Adjacent(prev, Last(w)) && Free(g, Last(w));
    if prev in visited {
      if prev in processed {
        assert false;
      }
    } else {
      ExitBound(g, start, visited, processed, dist, m, prefix);
    }
  }

  /** While `current` is expanded, every unprocessed visited cell is at least as
      far from the start as `current`. */
  lemma FrontierBound(g: GridState, start: Cell, current: QueueEntry, queue: seq<QueueEntry>,
                      visited: set<Cell>, processed: set<Cell>, dist: map<Cell, nat>)
    requires EntryOk(g, start, visited, dist, current)
    requires QueueOk(g, start, visited, dist, queue)
    requires Within(queue, |current.path|)
    requires Frontier(queue, visited, processed + {current.cell})
    ensures forall c :: c in visited && c !in processed ==> dist[c] >= |current.path| - 1
  {
    forall c | c in visited && c !in processed
      ensures dist[c] >= |current.path| - 1
    {
      if c != current.cell {
        assert InQueue(queue, c);
        var i :| 0 <= i < |queue| && queue[i].cell == c;
        assert EntryOk(g, start, visited, dist, queue[i]);
      }
    }
  }

  /** A cell first reached from `current` is one step farther than `current`
      along every walk. */
  lemma EnqueueKeepsLowerBound(g: GridState, start: Cell, current: QueueEntry, visited: set<Cell>,
                               processed: set<Cell>, dist: map<Cell, nat>, next: Cell)
    requires start in visited && visited == dist.Keys && processed <= visited
    requires Closed(g, processed, visited)
    requires forall c :: c in visited && c !in processed ==> dist[c] >= |current.path| - 1
    requires DistIsLowerBound(g, start, dist)
    requires next !in visited
    ensures DistIsLowerBound(g, start, dist[next := |current.path|])
  {
    forall w | IsWalk(g, start, w) && Last(w) in dist[next := |current.path|]
      ensures |w| - 1 >= dist[next := |current.path|][Last(w)]
    {
      if Last(w) == next {
        ExitBound(g, start, visited, processed, dist, |current.path| - 1, w);
      }
    }
  }

  lemma EntryOkGrows(g: GridState, start: Cell, visited: set<Cell>, dist: map<Cell, nat>, e: QueueEntry, next: Cell, d: nat)
    requires EntryOk(g, start, visited, dist, e)
    requires next !in dist
    ensures EntryOk(g, start, visited + {next}, dist[next := d], e)
  {
  }

  lemma EnqueueKeepsQueueOk(g: GridState, start: Cell, current: QueueEntry, queue: seq<QueueEntry>,
                            visited: set<Cell>, dist: map<Cell, nat>, next: Cell)
    requires visited == dist.Keys
    requires EntryOk(g, start, visited, dist, current)
    requires QueueOk(g, start, visited, dist, queue)
    requires Adjacent(current.cell, next) && Free(g, next) && next !in visited
    ensures EntryOk(g, start, visited + {next}, dist[next := |current.path|], current)
    ensures QueueOk(g, start, visited + {next}, dist[next := |current.path|],
                    queue + [QueueEntry(next, current.path + [next])])
  {
    var visited', dist' := visited + {next}, dist[next := |current.path|];
    var queue' := queue + [QueueEntry(next, current.path + [next])];
    EntryOkGrows(g, start, visited, dist, current, next, |current.path|);
    forall i | 0 <= i < |queue'|
      ensures EntryOk(g, start, visited', dist', queue'[i])
    {
      if i < |queue| {
        assert EntryOk(g, start, visited, dist, queue[i]);
        EntryOkGrows(g, start, visited, dist, queue[i], next, |current.path|);
      } else {
        var path := current.path + [next];
        assert IsWalk(g, start, path);
      }
    }
  }

  lemma EnqueueKeepsFrontier(queue: seq<QueueEntry>, visited: set<Cell>, processed: set<Cell>, e: QueueEntry)
    requires Frontier(queue, visited, processed)
    ensures Frontier(queue + [e], visited + {e.cell}, processed)
  {
    var queue' := queue + [e];
    forall c | c in visited + {e.cell} && c !in processed
      ensures InQueue(queue', c)
    {
      if c == e.cell {
        assert queue'[|queue|].cell == c;
      } else {
        var i :| 0 <= i < |queue| && queue[i].cell == c;
        assert queue'[i].cell == c;
      }
    }
  }

  /** An entry one step longer than the current one keeps the queue ordered. */
  lemma EnqueueKeepsOrder(queue: seq<QueueEntry>, lo: int, e: QueueEntry)
    requires Sorted(queue) && Within(queue, lo)
    requires |e.path| == lo + 1
    ensures Sorted(queue + [e]) && Within(queue + [e], lo)
  {
  }

  lemma VisitShrinksUnseen(g: GridState, visited: set<Cell>, next: Cell)
    requires InGrid(g, next) && next !in visited
    ensures |GridCells(g) - (visited + {next})| == |GridCells(g) - visited| - 1
  {
    assert next in GridCells(g);
    assert GridCells(g) - (visited + {next}) == (GridCells(g) - visited) - {next};
  }

  /** Examining one neighbour keeps the expansion state. */
  lemma EnqueueStep(g: GridState, start: Cell, end: Cell, current: QueueEntry, queue: seq<QueueEntry>,
                    visited: set<Cell>, processed: set<Cell>, dist: map<Cell, nat>, k: int)
    requires ExpandInvariant(g, start, end, current, queue, visited, processed, dist, k)
    requires 0 <= k < 4
    requires Free(g, Step(current.cell, Directions[k])) && Step(current.cell, Directions[k]) !in visited
    ensures var next := Step(current.cell, Directions[k]);
      ExpandInvariant(g, start, end, current, queue + [QueueEntry(next, current.path + [next])],
                      visited + {next}, processed, dist[next := |current.path|], k + 1)
  {
    var next := Step(current.cell, Directions[k]);
    StepAdjacent(current.cell, k);
    FrontierBound(g, start, current, queue, visited, processed, dist);
    EnqueueKeepsLowerBound(g, start, current, visited, processed, dist, next);
    EnqueueKeepsQueueOk(g, start, current, queue, visited, dist, next);
    EnqueueKeepsFrontier(queue, visited, processed + {current.cell}, QueueEntry(next, current.path + [next]));
    EnqueueKeepsOrder(queue, |current.path|, QueueEntry(next, current.path + [next]));
  }

  /** Passing over a neighbour that is blocked, off the grid or already
      visited keeps the expansion state. */
  lemma SkipStep(g: GridState, start: Cell, end: Cell, current: QueueEntry, queue: seq<QueueEntry>,
                 visited: set<Cell>, processed: set<Cell>, dist: map<Cell, nat>, k: int)
    requires ExpandInvariant(g, start, end, current, queue, visited, processed, dist, k)
    requires 0 <= k < 4
    requires !Free(g, Step(current.cell, Directions[k])) || Step(current.cell, Directions[k]) in visited
    ensures ExpandInvariant(g, start, end, current, queue, visited, processed, dist, k + 1)
  {
  }

  /** Taking the front entry off the queue starts its expansion. */
  lemma DequeueStep(g: GridState, start: Cell, end: Cell, queue: seq<QueueEntry>,
                    visited: set<Cell>, processed: set<Cell>, dist: map<Cell, nat>)
    requires SearchInvariant(g, start, end, queue, visited, processed, dist)
    requires |queue| > 0 && queue[0].cell != end
    ensures ExpandInvariant(g, start, end, queue[0], queue[1..], visited, processed, dist, 0)
  {
    var rest := queue[1..];
    assert EntryOk(g, start, visited, dist, queue[0]);
    forall i | 0 <= i < |rest|
      ensures EntryOk(g, start, visited, dist, rest[i])
    {
      assert rest[i] == queue[i + 1];
    }
    forall i | 0 <= i < |rest|
      ensures |queue[0].path| <= |rest[i].path| <= |queue[0].path| + 1
    {
      assert rest[i] == queue[i + 1];
    }
    forall c | c in visited && c !in processed + {queue[0].cell}
      ensures InQueue(rest, c)
    {
      var i :| 0 <= i < |queue| && queue[i].cell == c;
      assert rest[i - 1].cell == c;
    }
  }

  /** Once all four neighbours are examined, `current` joins the processed set. */
  lemma FinishStep(g: GridState, start: Cell, end: Cell, current: QueueEntry, queue: seq<QueueEntry>,
                   visited: set<Cell>, processed: set<Cell>, dist: map<Cell, nat>)
    requires ExpandInvariant(g, start, end, current, queue, visited, processed, dist, 4)
    ensures SearchInvariant(g, start, end, queue, visited, processed + {current.cell}, dist)
  {
    forall u, n | u in processed + {current.cell} && Adjacent(u, n) && Free(g, n)
      ensures n in visited
    {
      if u == current.cell {
        AdjacentIsStep(u, n);
      }
    }
  }

  /** The front entry's path is as short as any walk to its cell. */
  lemma FrontIsShortest(g: GridState, start: Cell, end: Cell, queue: seq<QueueEntry>,
                        visited: set<Cell>, processed: set<Cell>, dist: map<Cell, nat>)
    requires SearchInvariant(g, start, end, queue, visited, processed, dist)
    requires |queue| > 0
    ensures IsWalk(g, start, queue[0].path) && Last(queue[0].path) == queue[0].cell && Distinct(queue[0].path)
    ensures forall w :: IsWalk(g, start, w) && Last(w) == queue[0].cell ==> |queue[0].path| <= |w|
  {
    assert EntryOk(g, start, visited, dist, queue[0]);
  }

  /** When the front entry is the end cell, its path is the answer: a shortest
      repetition-free walk to the end, just [start] when the end is the start,
      and otherwise ending with a step onto the free end cell. */
  lemma FoundEnd(g: GridState, start: Cell, end: Cell, queue: seq<QueueEntry>,
                 visited: set<Cell>, processed: set<Cell>, dist: map<Cell, nat>)
    requires SearchInvariant(g, start, end, queue, visited, processed, dist)
    requires |queue| > 0 && queue[0].cell == end
    ensures IsWalk(g, start, queue[0].path) && Last(queue[0].path) == end && Distinct(queue[0].path)
    ensures forall w :: IsWalk(g, start, w) && Last(w) == end ==> |queue[0].path| <= |w|
    ensures start == end ==> queue[0].path == [start]
    ensures start != end ==> Free(g, end)
  {
    FrontIsShortest(g, start, end, queue, visited, processed, dist);
    var p := queue[0].path;
    if start == end {
      assert IsWalk(g, start, [start]);
    } else {
      assert Adjacent(p[|p| - 2], p[|p| - 1]) && Free(g, p[|p| - 1]);
    }
  }

  /** With the queue exhausted, no walk reaches the end. */
  lemma ExhaustedUnreachable(g: GridState, start: Cell, end: Cell,
                             visited: set<Cell>, processed: set<Cell>, dist: map<Cell, nat>)
    requires SearchInvariant(g, start, end, [], visited, processed, dist)
    ensures forall w :: IsWalk(g, start, w) ==> Last(w) != end
  {
    forall w | IsWalk(g, start, w)
      ensures Last(w) != end
    {
      if Last(w) == end {
        ExitBound(g, start, visited, processed, dist, |w|, w);
      }
    }
  }

  /** One round of the search: the neighbours of `current` (already taken off
      the front of the queue) that are inside the grid, not occupied and not yet
      visited are marked visited and appended with the path extended by their
      cell, in the order up, down, left, right. */
  method Expand(g: GridState, occupied: set<Cell>, start: Cell, end: Cell, current: QueueEntry,
                queue0: seq<QueueEntry>, visited0: set<Cell>, ghost processed: set<Cell>, ghost dist0: map<Cell, nat>)
    returns (queue: seq<QueueEntry>, visited: set<Cell>, ghost dist: map<Cell, nat>)
    requires forall c :: c in occupied <==> Covered(g.blocks, c)
    requires ExpandInvariant(g, start, end, current, queue0, visited0, processed, dist0, 0)
    ensures ExpandInvariant(g, start, end, current, queue, visited, processed, dist, 4)
    ensures |GridCells(g) - visited| + |queue| == |GridCells(g) - visited0| + |queue0|
  {
    queue, visited, dist := queue0, visited0, dist0;
    for k := 0 to 4
      invariant ExpandInvariant(g, start, end, current, queue, visited, processed, dist, k)
      invariant |GridCells(g) - visited| + |queue| == |GridCells(g) - visited0| + |queue0|
    {
      var next := Step(current.cell, Directions[k]);
      if 0 <= next.row < g.rows && 0 <= next.col < g.cols && next !in occupied && next !in visited {
        EnqueueStep(g, start, end, current, queue, visited, processed, dist, k);
        VisitShrinksUnseen(g, visited, next);
        visited := visited + {next};
        queue := queue + [QueueEntry(next, current.path + [next])];
        dist := dist[next := |current.path|];
      } else {
        SkipStep(g, start, end, current, queue, visited, processed, dist, k);
      }
    }
  }

  /** isPathClear: breadth-first search from `start` towards `end` over the
      4-connected grid. When reachable, the path is a walk from start to end
      without repeated cells and with the fewest steps of all walks; when
      unreachable, the path is empty and no walk reaches the end. */
  method IsPathClear(g: GridState, start: Cell, end: Cell) returns (result: SearchResult)
    ensures start == end ==> result == SearchResult(true, [start])
    ensures result.isReachable ==> IsWalk(g, start, result.path) && Last(result.path) == end && Distinct(result.path)
    ensures result.isReachable ==> forall w :: IsWalk(g, start, w) && Last(w) == end ==> |result.path| <= |w|
    ensures !result.isReachable ==> result.path == [] && forall w :: IsWalk(g, start, w) ==> Last(w) != end
    ensures end != start && !Free(g, end) ==> !result.isReachable
  {
    var occupied := OccupiedCells(g.blocks);
    var queue := [QueueEntry(start, [start])];
    var visited := {start};
    ghost var processed: set<Cell> := {};
    ghost var dist: map<Cell, nat> := map[start := 0];
    assert EntryOk(g, start, visited, dist, queue[0]);
    while |queue| > 0
      invariant SearchInvariant(g, start, end, queue, visited, processed, dist)
      decreases |GridCells(g) - visited| + |queue|
    {
      var current := queue[0];
      if current.cell == end {
        FoundEnd(g, start, end, queue, visited, processed, dist);
        return SearchResult(true, current.path);
      }
      DequeueStep(g, start, end, queue, visited, processed, dist);
      queue := queue[1..];
      queue, visited, dist := Expand(g, occupied, start, end, current, queue, visited, processed, dist);
      FinishStep(g, start, end, current, queue, visited, processed, dist);
      processed := processed + {current.cell};
    }
    ExhaustedUnreachable(g, start, end, visited, processed, dist);
    return SearchResult(false, []);
  }

  /** What findOptimalPath promises about its result: a shortest walk from
      start to end without repeated cells, or the empty path exactly when no
      walk reaches the end. */
  ghost predicate ShortestOrNone(g: GridState, start: Cell, end: Cell, path: seq<Cell>) {
    && (|path| > 0 ==> IsWalk(g, start, path) && Last(path) == end && Distinct(path))
    && (|path| > 0 ==> forall w :: IsWalk(g, start, w) && Last(w) == end ==> |path| <= |w|)
    && (|path| == 0 <==> forall w :: IsWalk(g, start, w) ==> Last(w) != end)
  }

  /** findOptimalPath: the path component of isPathClear. */
  method FindOptimalPath(g: GridState, start: Cell, end: Cell) returns (path: seq<Cell>)
    ensures ShortestOrNone(g, start, end, path)
  {
    var result := IsPathClear(g, start, end);
    path := result.path;
  }

  // ---------------------------------------------------------------------------
  // A grid without blocks

  /** The number of unit steps between two cells along the grid lines. */
  function Distance(a: Cell, b: Cell): nat {
    Abs(a.row - b.row) + Abs(a.col - b.col)
  }

  /** One unit step from `c` toward `end`: along the column first, then along
      the row. */
  function Toward(c: Cell, end: Cell): Cell {
    if c.row < end.row then Cell(c.row + 1, c.col)
    else if c.row > end.row then Cell(c.row - 1, c.col)
    else if c.col < end.col then Cell(c.row, c.col + 1)
    else if c.col > end.col then Cell(c.row, c.col - 1)
    else c
  }

  /** The L-shaped route from `c` to `end`: one cell per unit of distance,
      plus the start. */
  function StraightWalk(c: Cell, end: Cell): (w: seq<Cell>)
    ensures |w| == Distance(c, end) + 1
    ensures w[0] == c && Last(w) == end
    decreases Distance(c, end)
  {
    if c == end then [c] else [c] + StraightWalk(Toward(c, end), end)
  }

  /** On a grid without blocks the L-shaped route between two cells of the
      grid is a walk. */
  lemma {:induction false} StraightWalkIsWalk(g: GridState, c: Cell, end: Cell)
    requires g.blocks == [] && InGrid(g, c) && InGrid(g, end)
    ensures IsWalk(g, c, StraightWalk(c, end))
    decreases Distance(c, end)
  {
    if c != end {
      var next := Toward(c, end);
      StraightWalkIsWalk(g, next, end);
      var rest := StraightWalk(next, end);
      var w := [c] + rest;
      assert Free(g, next);
      forall i | 1 <= i < |w|
        ensures Adjacent(w[i - 1], w[i]) && Free(g, w[i])
      {
        if i == 1 {
          assert w[1] == next;
        } else {
          assert w[i - 1] == rest[i - 2] && w[i] == rest[i - 1];
        }
      }
    }
  }

  /** Every walk ends within as many unit steps of its start as it takes:
      no route to a cell is shorter than the distance plus one. */
  lemma {:induction false} WalkWithinDistance(g: GridState, start: Cell, w: seq<Cell>)
    requires IsWalk(g, start, w)
    ensures Distance(start, Last(w)) <= |w| - 1
    decreases |w|
  {
    if |w| > 1 {
      var front := w[..|w| - 1];
      assert forall i :: 0 <= i < |front| ==> front[i] == w[i];
      assert IsWalk(g, start, front);
      WalkWithinDistance(g, start, front);
      assert Adjacent(Last(front), Last(w));
    }
  }

  /** On a grid without blocks the search always reaches a target inside the
      grid, and its path has exactly one cell per unit of distance plus the
      start. */
  method OpenGridPath(g: GridState, start: Cell, end: Cell) returns (result: SearchResult)
    requires g.blocks == [] && InGrid(g, start) && InGrid(g, end)
    ensures result.isReachable
    ensures IsWalk(g, start, result.path) && Last(result.path) == end
    ensures |result.path| == Distance(start, end) + 1
  {
    result := IsPathClear(g, start, end);
    StraightWalkIsWalk(g, start, end);
    WalkWithinDistance(g, start, result.path);
  }
}
