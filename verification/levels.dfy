/** The level catalog: the block, cell and level records and the constant
    table of twenty levels, in play order. */
module Levels {

  datatype Orientation = Horizontal | Vertical

  /** A rectangular block; its footprint is rows `row .. row+height-1` and
      columns `col .. col+width-1`. `color` is an opaque tag (a hex code). */
  datatype Block = Block(
    id: string,
    row: int,
    col: int,
    width: int,
    height: int,
    color: string,
    orientation: Orientation,
    movable: bool)

  /** A grid cell `{ row, col }`. */
  datatype Cell = Cell(row: int, col: int)

  datatype Level = Level(
    id: int,
    gridRows: int,
    gridCols: int,
    blocks: seq<Block>,
    ballStart: Cell,
    ballEnd: Cell,
    minMoves: int,
    title: string)

  /** The colour tag of the fixed (immovable) blocks. */
  const Gray := "#BDBDBD"

  /** Cell `c` lies in the footprint of block `b`. */
  predicate InFootprint(b: Block, c: Cell) {
    b.row <= c.row < b.row + b.height && b.col <= c.col < b.col + b.width
  }

  /** Cell `c` is occupied: it lies in the footprint of some block. */
  predicate Covered(blocks: seq<Block>, c: Cell) {
    exists i :: 0 <= i < |blocks| && InFootprint(blocks[i], c)
  }

  /** Shape rules every authored block keeps. */
  predicate WellShaped(b: Block) {
    && b.width >= 1 && b.height >= 1
    && (b.orientation == Vertical ==> b.width == 1)
    && (b.orientation == Horizontal ==> b.height == 1)
    && (b.movable <==> b.color != Gray)
    && (!b.movable ==> b.width == 1 && b.height == 1)
  }

  /** The footprint of `b` lies inside a `rows` x `cols` grid. */
  predicate InsideGrid(b: Block, rows: int, cols: int) {
    0 <= b.row && b.row + b.height <= rows && 0 <= b.col && b.col + b.width <= cols
  }

  predicate UniqueIds(blocks: seq<Block>) {
    forall i, j :: 0 <= i < j < |blocks| ==> blocks[i].id != blocks[j].id
  }

  /** What the authored data does satisfy. Deliberately absent: that blocks are
      pairwise disjoint and that the start and end cells are free, which the
      data does not satisfy. */
  predicate WellFormedLevel(l: Level) {
    && 1 <= l.gridRows <= 7 && 1 <= l.gridCols <= 7
    && (forall i :: 0 <= i < |l.blocks| ==> WellShaped(l.blocks[i]))
    && (forall i :: 0 <= i < |l.blocks| ==> InsideGrid(l.blocks[i], l.gridRows, l.gridCols))
    && UniqueIds(l.blocks)
    && l.ballStart == Cell(l.gridRows - 1, 0)
    && l.ballEnd == Cell(0, l.gridCols - 1)
    && l.minMoves >= 1
  }

  const LevelCount := 20

  /** The catalog: ids 1 to 20, in play order. */
  const PuzzleLevels: seq<Level> := [
    Level1, Level2, Level3, Level4, Level5, Level6, Level7, Level8, Level9, Level10,
    Level11, Level12, Level13, Level14, Level15, Level16, Level17, Level18, Level19, Level20
  ]

  const Level1: Level := Level(
    1, 4, 4,
    [
      Block("orange1", 0, 0, 1, 3, "#FF9800", Vertical, true),
      Block("blue1", 1, 1, 1, 2, "#2196F3", Vertical, true),
      Block("green1", 1, 2, 2, 1, "#4CAF50", Horizontal, true),
      Block("purple1", 2, 3, 1, 2, "#9C27B0", Vertical, true),
      Block("gray1", 1, 1, 1, 1, "#BDBDBD", Horizontal, false),
      Block("gray2", 2, 2, 1, 1, "#BDBDBD", Horizontal, false)
    ],
    Cell(3, 0), Cell(0, 3), 6, "Beginner Level 1")

  const Level2: Level := Level(
    2, 5, 3,
    [
      Block("orange1", 0, 0, 1, 2, "#FF9800", Vertical, true),
      Block("blue1", 2, 1, 1, 2, "#2196F3", Vertical, true),
      Block("green1", 1, 1, 2, 1, "#4CAF50", Horizontal, true),
      Block("gray1", 3, 2, 1, 1, "#BDBDBD", Horizontal, false)
    ],
    Cell(4, 0), Cell(0, 2), 5, "Beginner Level 2")

  const Level3: Level := Level(
    3, 4, 7,
    [
      Block("orange1", 0, 1, 1, 3, "#FF9800", Vertical, true),
      Block("blue1", 1, 3, 1, 3, "#2196F3", Vertical, true),
      Block("green1", 2, 4, 2, 1, "#4CAF50", Horizontal, true),
      Block("purple1", 1, 5, 1, 2, "#9C27B0", Vertical, true),
      Block("gray1", 2, 2, 1, 1, "#BDBDBD", Horizontal, false),
      Block("gray2", 1, 6, 1, 1, "#BDBDBD", Horizontal, false)
    ],
    Cell(3, 0), Cell(0, 6), 8, "Intermediate Level 1")

  const Level4: Level := Level(
    4, 6, 6,
    [
      Block("orange1", 0, 1, 1, 4, "#FF9800", Vertical, true),
      Block("blue1", 2, 2, 1, 3, "#2196F3", Vertical, true),
      Block("green1", 1, 3, 2, 1, "#4CAF50", Horizontal, true),
      Block("purple1", 3, 4, 1, 2, "#9C27B0", Vertical, true),
      Block("gray1", 2, 3, 1, 1, "#BDBDBD", Horizontal, false),
      Block("gray2", 4, 5, 1, 1, "#BDBDBD", Horizontal, false)
    ],
    Cell(5, 0), Cell(0, 5), 10, "Intermediate Level 2")

  const Level5: Level := Level(
    5, 6, 7,
    [
      Block("orange1", 0, 2, 1, 4, "#FF9800", Vertical, true),
      Block("blue1", 2, 3, 1, 3, "#2196F3", Vertical, true),
      Block("green1", 1, 4, 2, 1, "#4CAF50", Horizontal, true),
      Block("purple1", 3, 5, 1, 2, "#9C27B0", Vertical, true),
      Block("orange2", 1, 0, 1, 2, "#FF9800", Vertical, true),
      Block("gray1", 3, 1, 1, 1, "#BDBDBD", Horizontal, false),
      Block("gray2", 4, 4, 1, 1, "#BDBDBD", Horizontal, false)
    ],
    Cell(5, 0), Cell(0, 6), 12, "Advanced Level 1")

  const Level6: Level := Level(
    6, 7, 6,
    [
      Block("orange1", 1, 1, 1, 4, "#FF9800", Vertical, true),
      Block("blue1", 3, 2, 1, 3, "#2196F3", Vertical, true),
      Block("green1", 2, 3, 2, 1, "#4CAF50", Horizontal, true),
      Block("purple1", 4, 4, 1, 2, "#9C27B0", Vertical, true),
      Block("blue2", 0, 0, 1, 2, "#2196F3", Vertical, true),
      Block("gray1", 3, 3, 1, 1, "#BDBDBD", Horizontal, false),
      Block("gray2", 5, 5, 1, 1, "#BDBDBD", Horizontal, false)
    ],
    Cell(6, 0), Cell(0, 5), 13, "Advanced Level 2")

  const Level7: Level := Level(
    7, 7, 7,
    [
      Block("orange1", 1, 2, 1, 5, "#FF9800", Vertical, true),
      Block("blue1", 3, 3, 1, 3, "#2196F3", Vertical, true),
      Block("green1", 2, 4, 2, 1, "#4CAF50", Horizontal, true),
      Block("purple1", 4, 5, 1, 2, "#9C27B0", Vertical, true),
      Block("orange2", 0, 1, 1, 3, "#FF9800", Vertical, true),
      Block("blue2", 1, 0, 1, 2, "#2196F3", Vertical, true),
      Block("gray1", 4, 1, 1, 1, "#BDBDBD", Horizontal, false),
      Block("gray2", 5, 4, 1, 1, "#BDBDBD", Horizontal, false),
      Block("gray3", 2, 6, 1, 1, "#BDBDBD", Horizontal, false)
    ],
    Cell(6, 0), Cell(0, 6), 15, "Expert Level 1")

  const Level8: Level := Level(
    8, 5, 5,
    [
      Block("orange1", 0, 1, 1, 3, "#FF9800", Vertical, true),
      Block("blue1", 2, 2, 1, 2, "#2196F3", Vertical, true),
      Block("green1", 1, 3, 2, 1, "#4CAF50", Horizontal, true),
      Block("purple1", 3, 3, 1, 2, "#9C27B0", Vertical, true),
      Block("gray1", 2, 3, 1, 1, "#BDBDBD", Horizontal, false)
    ],
    Cell(4, 0), Cell(0, 4), 9, "Intermediate Level 3")

  const Level9: Level := Level(
    9, 6, 6,
    [
      Block("orange1", 0, 2, 1, 4, "#FF9800", Vertical, true),
      Block("blue1", 2, 3, 1, 3, "#2196F3", Vertical, true),
      Block("green1", 1, 4, 2, 1, "#4CAF50", Horizontal, true),
      Block("purple1", 3, 4, 1, 2, "#9C27B0", Vertical, true),
      Block("orange2", 1, 1, 1, 2, "#FF9800", Vertical, true),
      Block("gray1", 3, 2, 1, 1, "#BDBDBD", Horizontal, false),
      Block("gray2", 4, 5, 1, 1, "#BDBDBD", Horizontal, false)
    ],
    Cell(5, 0), Cell(0, 5), 11, "Intermediate Level 4")

  const Level10: Level := Level(
    10, 4, 6,
    [
      Block("orange1", 0, 1, 1, 3, "#FF9800", Vertical, true),
      Block("blue1", 1, 3, 1, 2, "#2196F3", Vertical, true),
      Block("green1", 2, 4, 2, 1, "#4CAF50", Horizontal, true),
      Block("purple1", 2, 2, 1, 2, "#9C27B0", Vertical, true),
      Block("gray1", 1, 4, 1, 1, "#BDBDBD", Horizontal, false)
    ],
    Cell(3, 0), Cell(0, 5), 8, "Intermediate Level 5")

  const Level11: Level := Level(
    11, 7, 6,
    [
      Block("orange1", 1, 1, 1, 5, "#FF9800", Vertical, true),
      Block("blue1", 3, 3, 1, 3, "#2196F3", Vertical, true),
      Block("green1", 2, 4, 2, 1, "#4CAF50", Horizontal, true),
      Block("purple1", 4, 4, 1, 2, "#9C27B0", Vertical, true),
      Block("blue2", 0, 2, 1, 2, "#2196F3", Vertical, true),
      Block("gray1", 3, 2, 1, 1, "#BDBDBD", Horizontal, false),
      Block("gray2", 5, 5, 1, 1, "#BDBDBD", Horizontal, false)
    ],
    Cell(6, 0), Cell(0, 5), 14, "Advanced Level 3")

  const Level12: Level := Level(
    12, 6, 7,
    [
      Block("orange1", 0, 2, 1, 4, "#FF9800", Vertical, true),
      Block("blue1", 2, 4, 1, 3, "#2196F3", Vertical, true),
      Block("green1", 1, 5, 2, 1, "#4CAF50", Horizontal, true),
      Block("purple1", 3, 5, 1, 2, "#9C27B0", Vertical, true),
      Block("orange2", 1, 1, 1, 3, "#FF9800", Vertical, true),
      Block("gray1", 3, 3, 1, 1, "#BDBDBD", Horizontal, false),
      Block("gray2", 4, 6, 1, 1, "#BDBDBD", Horizontal, false)
    ],
    Cell(5, 0), Cell(0, 6), 13, "Advanced Level 4")

  const Level13: Level := Level(
    13, 7, 7,
    [
      Block("orange1", 1, 2, 1, 5, "#FF9800", Vertical, true),
      Block("blue1", 3, 4, 1, 4, "#2196F3", Vertical, true),
      Block("green1", 2, 5, 2, 1, "#4CAF50", Horizontal, true),
      Block("purple1", 4, 5, 1, 2, "#9C27B0", Vertical, true),
      Block("orange2", 0, 1, 1, 3, "#FF9800", Vertical, true),
      Block("blue2", 1, 3, 1, 2, "#2196F3", Vertical, true),
      Block("gray1", 4, 1, 1, 1, "#BDBDBD", Horizontal, false),
      Block("gray2", 5, 5, 1, 1, "#BDBDBD", Horizontal, false),
      Block("gray3", 2, 6, 1, 1, "#BDBDBD", Horizontal, false)
    ],
    Cell(6, 0), Cell(0, 6), 16, "Expert Level 2")

  const Level14: Level := Level(
    14, 5, 5,
    [
      Block("orange1", 0, 1, 1, 3, "#FF9800", Vertical, true),
      Block("blue1", 2, 2, 1, 3, "#2196F3", Vertical, true),
      Block("green1", 1, 3, 2, 1, "#4CAF50", Horizontal, true),
      Block("purple1", 3, 3, 1, 2, "#9C27B0", Vertical, true),
      Block("gray1", 2, 3, 1, 1, "#BDBDBD", Horizontal, false),
      Block("gray2", 1, 0, 1, 1, "#BDBDBD", Horizontal, false)
    ],
    Cell(4, 0), Cell(0, 4), 10, "Intermediate Level 6")

  const Level15: Level := Level(
    15, 6, 6,
    [
      Block("orange1", 0, 2, 1, 4, "#FF9800", Vertical, true),
      Block("blue1", 2, 3, 1, 4, "#2196F3", Vertical, true),
      Block("green1", 1, 4, 2, 1, "#4CAF50", Horizontal, true),
      Block("purple1", 3, 4, 1, 2, "#9C27B0", Vertical, true),
      Block("orange2", 1, 1, 1, 2, "#FF9800", Vertical, true),
      Block("gray1", 3, 2, 1, 1, "#BDBDBD", Horizontal, false),
      Block("gray2", 5, 5, 1, 1, "#BDBDBD", Horizontal, false),
      Block("gray3", 0, 0, 1, 1, "#BDBDBD", Horizontal, false)
    ],
    Cell(5, 0), Cell(0, 5), 12, "Advanced Level 5")

  const Level16: Level := Level(
    16, 7, 7,
    [
      Block("orange1", 1, 2, 1, 5, "#FF9800", Vertical, true),
      Block("blue1", 3, 4, 1, 4, "#2196F3", Vertical, true),
      Block("green1", 2, 5, 2, 1, "#4CAF50", Horizontal, true),
      Block("purple1", 4, 5, 1, 3, "#9C27B0", Vertical, true),
      Block("orange2", 0, 1, 1, 3, "#FF9800", Vertical, true),
      Block("blue2", 1, 3, 1, 2, "#2196F3", Vertical, true),
      Block("green2", 0, 5, 2, 1, "#4CAF50", Horizontal, true),
      Block("gray1", 4, 1, 1, 1, "#BDBDBD", Horizontal, false),
      Block("gray2", 5, 5, 1, 1, "#BDBDBD", Horizontal, false),
      Block("gray3", 2, 6, 1, 1, "#BDBDBD", Horizontal, false)
    ],
    Cell(6, 0), Cell(0, 6), 17, "Expert Level 3")

  const Level17: Level := Level(
    17, 6, 7,
    [
      Block("orange1", 0, 2, 1, 4, "#FF9800", Vertical, true),
      Block("blue1", 2, 4, 1, 4, "#2196F3", Vertical, true),
      Block("green1", 1, 5, 2, 1, "#4CAF50", Horizontal, true),
      Block("purple1", 3, 5, 1, 2, "#9C27B0", Vertical, true),
      Block("orange2", 1, 1, 1, 3, "#FF9800", Vertical, true),
      Block("blue2", 0, 3, 1, 2, "#2196F3", Vertical, true),
      Block("gray1", 3, 3, 1, 1, "#BDBDBD", Horizontal, false),
      Block("gray2", 5, 6, 1, 1, "#BDBDBD", Horizontal, false)
    ],
    Cell(5, 0), Cell(0, 6), 14, "Advanced Level 6")

  const Level18: Level := Level(
    18, 7, 6,
    [
      Block("orange1", 1, 1, 1, 5, "#FF9800", Vertical, true),
      Block("blue1", 3, 3, 1, 4, "#2196F3", Vertical, true),
      Block("green1", 2, 4, 2, 1, "#4CAF50", Horizontal, true),
      Block("purple1", 4, 4, 1, 3, "#9C27B0", Vertical, true),
      Block("blue2", 0, 2, 1, 3, "#2196F3", Vertical, true),
      Block("orange2", 0, 0, 1, 2, "#FF9800", Vertical, true),
      Block("gray1", 3, 2, 1, 1, "#BDBDBD", Horizontal, false),
      Block("gray2", 6, 5, 1, 1, "#BDBDBD", Horizontal, false)
    ],
    Cell(6, 0), Cell(0, 5), 15, "Expert Level 4")

  const Level19: Level := Level(
    19, 7, 7,
    [
      Block("orange1", 1, 2, 1, 5, "#FF9800", Vertical, true),
      Block("blue1", 3, 4, 1, 4, "#2196F3", Vertical, true),
      Block("green1", 2, 5, 2, 1, "#4CAF50", Horizontal, true),
      Block("purple1", 5, 5, 1, 2, "#9C27B0", Vertical, true),
      Block("orange2", 0, 1, 1, 3, "#FF9800", Vertical, true),
      Block("blue2", 1, 3, 1, 2, "#2196F3", Vertical, true),
      Block("green2", 0, 5, 2, 1, "#4CAF50", Horizontal, true),
      Block("purple2", 4, 0, 1, 2, "#9C27B0", Vertical, true),
      Block("gray1", 4, 1, 1, 1, "#BDBDBD", Horizontal, false),
      Block("gray2", 5, 4, 1, 1, "#BDBDBD", Horizontal, false),
      Block("gray3", 3, 6, 1, 1, "#BDBDBD", Horizontal, false)
    ],
    Cell(6, 0), Cell(0, 6), 18, "Expert Level 5")

  const Level20: Level := Level(
    20, 7, 7,
    [
      Block("orange1", 1, 2, 1, 6, "#FF9800", Vertical, true),
      Block("blue1", 3, 4, 1, 4, "#2196F3", Vertical, true),
      Block("green1", 2, 5, 2, 1, "#4CAF50", Horizontal, true),
      Block("purple1", 5, 5, 1, 2, "#9C27B0", Vertical, true),
      Block("orange2", 0, 1, 1, 4, "#FF9800", Vertical, true),
      Block("blue2", 1, 3, 1, 3, "#2196F3", Vertical, true),
      Block("green2", 0, 5, 2, 1, "#4CAF50", Horizontal, true),
      Block("purple2", 4, 0, 1, 3, "#9C27B0", Vertical, true),
      Block("orange3", 5, 1, 1, 2, "#FF9800", Vertical, true),
      Block("gray1", 4, 1, 1, 1, "#BDBDBD", Horizontal, false),
      Block("gray2", 6, 4, 1, 1, "#BDBDBD", Horizontal, false),
      Block("gray3", 3, 6, 1, 1, "#BDBDBD", Horizontal, false),
      Block("gray4", 1, 0, 1, 1, "#BDBDBD", Horizontal, false)
    ],
    Cell(6, 0), Cell(0, 6), 20, "Master Level")
}
