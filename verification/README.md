# Motion Challenge — a Dafny model of the sliding-block puzzle core

Motion Challenge is a browser puzzle. A ball sits on a grid of rectangular
blocks. The player drags blocks along their axis and then slides the ball
through the free cells to its target cell. There are twenty authored levels.
Each level has a 90-second countdown and a target move count. Every submitted
level is recorded as an attempt. At the end a summary screen scores the run,
and a review screen explains each wrong submission by naming the coloured
blocks that lie on the level's optimal path.

This project models the rule-carrying core of that game and proves properties
of it. The modules follow the source files:

- `Levels` (`levels.dfy`) holds the `Block` and `Level` records, footprints,
  well-formedness and the twenty authored levels.
  `LevelFacts` (`level_facts.dfy`) proves facts about that data.
- `Pathfinding` (`pathfinding.dfy`) holds the occupied-cell set,
  `checkCollision`, and the breadth-first search `isPathClear` /
  `findOptimalPath`. The search is proved to return a shortest walk, or
  nothing exactly when no walk exists.
- `Store` (`store.dfy`) is the session store, modelled as a class. Its fields
  are the store's state, and each action is a method that reassigns the
  fields the store's `set` call names.
- `PuzzleGrid` (`puzzle_grid.dfy`) holds the move rules of the drag interface,
  on whole cells:
  - clamping a dragged block and the block-drop rule;
  - `handleBlockMove`;
  - the ball's slide (`findValidPosition`);
  - the ball-drop rule.
- `GameHeader` (`game_header.dfy`) holds the countdown tick, the `m:ss` clock
  and the warning colour.
- `Summary` (`summary.dfy`) holds the end-of-game counts, totals, score, fast
  solutions, review list and duration text.
- `Review` (`review.dfy`) holds the per-attempt mistake review: blocked cells,
  optimal path, critical blocks and the explanatory sentence.
- `Text` (`text.dfy`) holds JavaScript's decimal rendering (`toString`,
  `padStart`, `join`, truncating `%`). It also has a decimal reader used to
  state what rendered text means.
- `Options` (`options.dfy`) holds the optional value used for `find` results
  and `userBlocks`.

Three behaviours of the code are worth stating up front:

- **One countdown, no auto-advance.** The code has one 90-second countdown
  that stops at 0. Its `nextLevel` records no attempt and sets `isPlaying` to
  false, and nothing advances or submits when time runs out.
  `Store.MotionGame.NextLevel` and `Store.AdvanceToEnd` state this.
- **Level 1 as authored.** In the authored data, row 2 of level 1 is fully
  covered (`Review.Level1Row2Covered`), so no walk leaves row 3 and the target
  is unreachable (`Review.Level1PristineUnreachable`). As a consequence, every
  review of a wrong level-1 submission shows the indirect-blockage sentence
  (`Review.Level1ReviewIsIndirect`).
- **Bad level index.** An index outside the catalog makes the store read a
  missing level and fail. `Store.MotionGame.SetCurrentLevel` therefore
  requires an index inside the catalog.

All source paths below are relative to the repository root.

## Model

| member | source | states |
|---|---|---|
| `LevelFacts.CatalogWellFormed` | client/src/data/puzzleLevels.ts:23-392 | The catalog has exactly twenty levels, level i has id i + 1, and every level is well formed: positive block sizes, blocks inside the grid, unique block ids, and start and end cells inside the grid. |
| `LevelFacts.AuthoredBlocksOverlap` | client/src/data/puzzleLevels.ts:33-38 | The authored blocks of levels 1 and 13 are not pairwise disjoint: a movable block and an immovable gray block cover the same cell. |
| `LevelFacts.AuthoredEndpointsCovered` | client/src/data/puzzleLevels.ts:289-391 | In levels 16, 19 and 20 the end cell lies under a block, and in level 20 the start cell does too. |
| `Pathfinding.OccupiedCells` | client/src/utils/pathfinding.ts:16-23 | The set built footprint by footprint holds exactly the cells covered by some block. |
| `Pathfinding.OverlapsOther` | client/src/utils/pathfinding.ts:81-92 | The scan reports an overlap if and only if some block with a different id has a rectangle overlapping the placed block's. |
| `Pathfinding.CheckCollision` | client/src/utils/pathfinding.ts:70-95 | A placement that does not collide lies inside the grid and shares no cell with any block of another id. |
| `Pathfinding.RectsOverlapIffSharesCell` | client/src/utils/pathfinding.ts:84-89 | For blocks of positive size, the four-inequality rectangle test holds exactly when the two footprints share a cell. |
| `Pathfinding.CheckCollisionExact` | client/src/utils/pathfinding.ts:78-94 | For blocks of positive size, no collision holds if and only if the placed block lies inside the grid and shares no cell with any block of another id. |
| `Pathfinding.Expand` | client/src/utils/pathfinding.ts:45-64 | Trying the four directions keeps the search invariants. Every queued entry is a repetition-free walk from start at its shortest distance. The queue stays ordered by path length, and processed cells have all their free neighbours visited. Afterwards every free neighbour of the current cell is visited. The number of unvisited grid cells plus the queue length is unchanged. |
| `Pathfinding.IsPathClear` | client/src/utils/pathfinding.ts:9-68 | When start equals end the result is reachable with the path [start]. A reachable result's path is a walk from start through free adjacent cells, ends at end, repeats no cell, and is no longer than any other such walk. An unreachable result has the empty path and no walk reaches end. An end cell that differs from start and is not free is never reachable. |
| `Pathfinding.StraightWalk` | client/src/utils/pathfinding.ts:9-68 | The L-shaped route between two cells starts at the first, ends at the second, and has one cell per unit of row and column distance, plus the start. |
| `Pathfinding.StraightWalkIsWalk` | client/src/utils/pathfinding.ts:9-68 | On a grid without blocks, the L-shaped route between two cells of the grid is a walk in the search's sense. |
| `Pathfinding.WalkWithinDistance` | client/src/utils/pathfinding.ts:9-68 | Any walk ends at most one unit of row plus column distance per step from its start, so no walk to a cell has fewer cells than the distance plus one. |
| `Pathfinding.OpenGridPath` | client/src/utils/pathfinding.ts:9-68 | On a grid without blocks, the search reaches every target inside the grid. Its path is a walk to the target with exactly the row distance plus the column distance plus one cells. |
| `Pathfinding.FindOptimalPath` | client/src/utils/pathfinding.ts:97-104 | The path is a shortest repetition-free walk from start to end. It is empty exactly when no walk reaches end. |
| `Store.MotionGame.constructor` | client/src/lib/stores/useMotionGame.tsx:41-51 | The initial state is the first level with its authored blocks, 0 moves, 90 seconds, not playing, not paused, no attempts and no screens shown. |
| `Store.MotionGame.SetCurrentLevel` | client/src/lib/stores/useMotionGame.tsx:53-63 | Loads the level at the index: its authored blocks, 0 moves, 90 seconds, neither playing nor paused. Attempts and screen flags are untouched. |
| `Store.MotionGame.UpdateBlocks` | client/src/lib/stores/useMotionGame.tsx:65 | Replaces the working blocks and nothing else. |
| `Store.MotionGame.IncrementMoves` | client/src/lib/stores/useMotionGame.tsx:67 | Adds one to the move counter and changes nothing else. |
| `Store.MotionGame.SetTimer` | client/src/lib/stores/useMotionGame.tsx:69 | Sets the countdown and changes nothing else. |
| `Store.MotionGame.StartPlaying` | client/src/lib/stores/useMotionGame.tsx:71 | Playing and not paused; only those two flags change. |
| `Store.MotionGame.PauseGame` | client/src/lib/stores/useMotionGame.tsx:73 | Paused; only that flag changes. |
| `Store.MotionGame.ResumeGame` | client/src/lib/stores/useMotionGame.tsx:75 | Not paused; only that flag changes. |
| `Store.MotionGame.CurrentAttempt` | client/src/lib/stores/useMotionGame.tsx:78-86 | The attempt carries the current level's id and moves. Its time taken and the remaining countdown add up to 90. It keeps the working blocks exactly when the submission is wrong. |
| `Store.MotionGame.SubmitSolution` | client/src/lib/stores/useMotionGame.tsx:77-93 | Appends exactly that attempt to the record, keeps every earlier one, and pauses. |
| `Store.MotionGame.NextLevel` | client/src/lib/stores/useMotionGame.tsx:95-111 | Below the last level, loads the following level fresh. At the last level, ends the game: completed, summary shown, not playing, everything else kept. It never records an attempt. |
| `Store.MotionGame.RestartLevel` | client/src/lib/stores/useMotionGame.tsx:113-123 | The current level again, fresh; attempts and screen flags are kept. |
| `Store.MotionGame.ResetGame` | client/src/lib/stores/useMotionGame.tsx:125-139 | Back to the initial state: level 1 fresh, no attempts, no screens. |
| `Store.MotionGame.CompleteGame` | client/src/lib/stores/useMotionGame.tsx:141-147 | Completed, not playing, summary shown; only those three fields change. |
| `Store.MotionGame.ShowSummaryDashboard` | client/src/lib/stores/useMotionGame.tsx:149-151 | Shows the summary; only that flag changes. |
| `Store.MotionGame.ToggleMistakeReview` | client/src/lib/stores/useMotionGame.tsx:153-155 | Flips the review flag; only that flag changes. |
| `Store.MotionGame.GetCurrentLevel` | client/src/lib/stores/useMotionGame.tsx:157-160 | The current level is a level of the catalog, and its id is the current index plus one. |
| `Store.ToggleTwice` | client/src/lib/stores/useMotionGame.tsx:153-155 | Toggling the review twice restores the flag. |
| `Store.SubmitAndAdvance` | client/src/lib/stores/useMotionGame.tsx:77-111 | A correct submission followed by nextLevel leaves exactly one new attempt, correct and with the played level's id. It then loads the next level fresh, or ends the game at the last level. |
| `Store.AdvanceToEnd` | client/src/lib/stores/useMotionGame.tsx:95-111 | Starting from any level of a game that is not yet completed, repeated nextLevel calls end the game on the last level with the summary shown. This takes exactly 20 − index calls and records no attempt. |
| `PuzzleGrid.ClampDrag` | client/src/components/PuzzleGrid.tsx:70-77 | A horizontal block keeps its row and a vertical one its column. A raw coordinate already in range is kept. The result is non-negative and, when the block fits, leaves the block inside the grid. |
| `PuzzleGrid.ClampedDropCollidesOnlyWithBlocks` | client/src/components/PuzzleGrid.tsx:70-77 | A clamped position of a block that fits the grid passes the bounds half of checkCollision. Only an overlap with a block of another id can make it collide. |
| `PuzzleGrid.BlockDrop` | client/src/components/PuzzleGrid.tsx:33-114 | An immovable block never starts a drag and stays. A movable block's drop is committed to the pointer cell if and only if that cell is collision-free and differs from the stored cell. It reverts if and only if the cell collides. The ball plays no part. |
| `PuzzleGrid.DropShowsLegalCell` | client/src/components/PuzzleGrid.tsx:91-114 | After a release the block is shown either at its stored cell, or inside the grid sharing no cell with any block of another id. |
| `PuzzleGrid.FindBlock` | client/src/components/PuzzleGrid.tsx:475 | Returns the first position holding the id, or none when no block has it. |
| `PuzzleGrid.MoveBlock` | client/src/components/PuzzleGrid.tsx:481-483 | Same length. Every block with the id is moved to the new cell with its other fields kept, and every other block is unchanged. |
| `PuzzleGrid.MoveBlockKeepsIds` | client/src/components/PuzzleGrid.tsx:481-483 | Moving keeps every id in place, so the first block with the id is found at the same position before and after. |
| `PuzzleGrid.MoveBlockInPlace` | client/src/components/PuzzleGrid.tsx:481-483 | With unique ids, moving a block to its own cell leaves the blocks unchanged. |
| `PuzzleGrid.HandleBlockMove` | client/src/components/PuzzleGrid.tsx:474-489 | An unknown id changes nothing. Otherwise the store's blocks become the moved blocks, and the move counter grows by the row distance plus the column distance from the first block with that id. |
| `PuzzleGrid.IsCellOccupied` | client/src/components/PuzzleGrid.tsx:226-235 | True if and only if the cell lies in some block's footprint. |
| `PuzzleGrid.SlideStopsUnique` | client/src/components/PuzzleGrid.tsx:237-275 | A slide has only one stopping point. |
| `PuzzleGrid.Slide` | client/src/components/PuzzleGrid.tsx:243-255 | The scan stops at a coordinate between the ball and the target. Every cell passed is inside the grid and unoccupied, and the stop is the target or the next cell is blocked or off the grid. |
| `PuzzleGrid.FindValidPosition` | client/src/components/PuzzleGrid.tsx:237-275 | The ball keeps its row (horizontal) or column (vertical) and stops where the slide towards the target stops. A target on the ball's own coordinate returns the ball's cell. |
| `PuzzleGrid.SlideIsWalk` | client/src/components/PuzzleGrid.tsx:246-255 | From a ball inside the grid, a slide ends on the ball's cell or on a free cell. The cells passed form a walk of the ball in the search's sense. |
| `PuzzleGrid.LaneWalk` | client/src/components/PuzzleGrid.tsx:246-255 | The cells passed by a slide number one more than the distance slid. |
| `PuzzleGrid.BallTarget` | client/src/components/PuzzleGrid.tsx:329-338 | The target keeps the ball's coordinate across the drag direction. Along it, the target is brought inside the grid, and a raw coordinate already inside is kept. |
| `PuzzleGrid.BallDragPosition` | client/src/components/PuzzleGrid.tsx:322-345 | The shown ball cell lies on the ball's line and is the ball's cell or a free cell. It is no farther than the clamped target and is reached by a walk through free cells. |
| `PuzzleGrid.HandleBallDrop` | client/src/components/PuzzleGrid.tsx:359-393 | A drop on a different, unoccupied cell becomes the new ball cell and adds the row plus column distance to the moves. Any other drop changes neither. |
| `PuzzleGrid.SlideDropCommits` | client/src/components/PuzzleGrid.tsx:359-373 | A cell found by the slide is the ball's own cell, or one the drop commits, adding exactly the slide length in moves. |
| `GameHeader.TickTimer` | client/src/components/GameHeader.tsx:15 | One tick lowers a positive timer by one and never goes below 0. |
| `GameHeader.TicksCountDown` | client/src/components/GameHeader.tsx:11-19 | From a non-negative start, n ticks leave start − n, or 0 once the time is used up. |
| `GameHeader.Tick` | client/src/components/GameHeader.tsx:11-19 | The timer moves only while playing and not paused. |
| `GameHeader.FormatClock` | client/src/components/GameHeader.tsx:21-25 | For a non-negative time, the clock text is digits, a colon and exactly two digits. The digits read back as the minutes and the seconds below 60 that make up the time. |
| `GameHeader.PaddedTwoDigits` | client/src/components/GameHeader.tsx:24 | A number below 100 padded to two digits is two digits that read back as the number. |
| `GameHeader.TimerColorOf` | client/src/components/GameHeader.tsx:27 | The warning colour is shown if and only if the timer is at most 10. |
| `GameHeader.WarningPersists` | client/src/components/GameHeader.tsx:11-27 | Once the warning colour shows, it stays through every later tick. |
| `Summary.Correct` | client/src/components/SummaryDashboard.tsx:17 | The correct attempts are no more than all attempts. `Summary.FilterMembers` states that they are exactly the attempts marked correct. |
| `Summary.Incorrect` | client/src/components/SummaryDashboard.tsx:18 | The wrong attempts are no more than all attempts. `Summary.FilterMembers` states that they are exactly the attempts marked wrong. |
| `Summary.FiltersAppend` | client/src/components/SummaryDashboard.tsx:17-61 | Appending one attempt extends the correct, incorrect, fast and exceeded-target filters by that attempt exactly when it passes each test. |
| `Summary.FiltersDistribute` | client/src/components/SummaryDashboard.tsx:17-20 | Filtering a concatenation filters each part and keeps the order. |
| `Summary.FilterMembers` | client/src/components/SummaryDashboard.tsx:17-61 | Each filter keeps exactly the attempts that pass its test. |
| `Summary.CountsAddUp` | client/src/components/SummaryDashboard.tsx:17-18 | The correct and incorrect counts add up to the number of attempts. |
| `Summary.FindLevel` | client/src/components/SummaryDashboard.tsx:28 | Returns the first catalog level with the id, or none when no level has it. |
| `Summary.CatalogLookup` | client/src/components/SummaryDashboard.tsx:28 | In the game's catalog, ids 1 to 20 find the level at position id − 1, and every other id finds nothing. |
| `Summary.SumMoves` | client/src/components/SummaryDashboard.tsx:21 | The summed moves are non-negative when every attempt's moves are. |
| `Summary.SumTime` | client/src/components/SummaryDashboard.tsx:22-25 | The summed time is non-negative when every attempt's time is. |
| `Summary.OptimalMoves` | client/src/components/SummaryDashboard.tsx:27-30 | An attempt at an unknown level contributes a target of 0. The target is non-negative when every catalog level's target is. |
| `Summary.SumOptimal` | client/src/components/SummaryDashboard.tsx:27-30 | The summed targets are non-negative when every catalog level's target is. |
| `Summary.TotalMoves` | client/src/components/SummaryDashboard.tsx:20-21 | With no correct attempt the total is 0. The total is non-negative when every attempt's moves are. |
| `Summary.TotalTime` | client/src/components/SummaryDashboard.tsx:20-25 | With no correct attempt the total is 0. The total is non-negative when every attempt's time is. |
| `Summary.TotalOptimalMoves` | client/src/components/SummaryDashboard.tsx:20-30 | With no correct attempt the total is 0. The total is non-negative when every catalog level's target is. |
| `Summary.SumsAppend` | client/src/components/SummaryDashboard.tsx:21-47 | The move, time, target and score sums are left folds: one more attempt adds its own value. |
| `Summary.TotalsAppend` | client/src/components/SummaryDashboard.tsx:20-30 | A wrong submission leaves the total moves, time and target moves unchanged. A correct one adds its own moves, time and level target. |
| `Summary.LevelScore` | client/src/components/SummaryDashboard.tsx:40-44 | A level's score is never negative. It is at most 200 when the time is non-negative, and exactly 200 within the target with no time spent. |
| `Summary.LevelScoreMonotone` | client/src/components/SummaryDashboard.tsx:40-44 | More moves or more time never raise a level's score. |
| `Summary.AttemptScore` | client/src/components/SummaryDashboard.tsx:37-46 | An attempt adds between 0 and 200 to the score. An attempt at an unknown level adds 0. |
| `Summary.SumScore` | client/src/components/SummaryDashboard.tsx:36-47 | The summed score is never negative. |
| `Summary.SumScoreBounds` | client/src/components/SummaryDashboard.tsx:36-47 | With non-negative times, the summed score is at most 200 per attempt. |
| `Summary.Score` | client/src/components/SummaryDashboard.tsx:36-47 | The score is never negative, and it is 0 without correct attempts. `Summary.ScoreBounds` and `Summary.ScoreAppend` bound it and show how it grows. |
| `Summary.MaxPossibleScore` | client/src/components/SummaryDashboard.tsx:49 | The maximum is a non-negative multiple of 200. It is 0 exactly when there is no correct attempt. |
| `Summary.ScoreBounds` | client/src/components/SummaryDashboard.tsx:36-49 | The score lies between 0 and the maximum possible score, 200 per correct attempt. |
| `Summary.ScoreAppend` | client/src/components/SummaryDashboard.tsx:36-49 | A wrong submission changes neither the score nor the maximum. A correct one adds its own score to the score and 200 to the maximum. |
| `Summary.SingleAttemptScore` | client/src/components/SummaryDashboard.tsx:36-49 | One correct attempt within its level's target, with no time spent, scores the full maximum of 200. |
| `Summary.FastSolutions` | client/src/components/SummaryDashboard.tsx:51-53 | The fast solutions are no more than all attempts. `Summary.FilterMembers` states that they are exactly the correct attempts of at most 10 seconds. |
| `Summary.FastAtMostCorrect` | client/src/components/SummaryDashboard.tsx:51-53 | There are never more fast solutions than correct attempts. |
| `Summary.ExceededTargetLevels` | client/src/components/SummaryDashboard.tsx:57-61 | The exceeded-target attempts are no more than all attempts. `Summary.FilterMembers` states that they are exactly the correct attempts at a known level with more moves than its target. |
| `Summary.ExceededAtMostCorrect` | client/src/components/SummaryDashboard.tsx:57-61 | There are never more exceeded-target levels than correct attempts. |
| `Summary.ReviewableLevels` | client/src/components/SummaryDashboard.tsx:55-63 | The review list is no longer than the attempt record. |
| `Summary.ReviewableParts` | client/src/components/SummaryDashboard.tsx:55-63 | The review list holds exactly the wrong attempts and the correct ones that went over a known level's target. Its two parts share no attempt. |
| `Summary.WithinTargetsMovesBounded` | client/src/components/SummaryDashboard.tsx:20-61 | When no correct attempt exceeded its target and all are at known levels, the total moves are at most the total target moves. |
| `Summary.FormatDuration` | client/src/components/SummaryDashboard.tsx:65-69 | For a non-negative duration, the text is digits, "m ", digits, "s". The digits read back as the minutes and the seconds below 60 that make it up. |
| `Review.Touches` | client/src/components/MistakeReview.tsx:60-69 | The nested scan returns true if and only if some path cell lies in the block's footprint. |
| `Review.CriticalMembers` | client/src/components/MistakeReview.tsx:59-70 | A block is critical exactly when it is one of the submitted blocks and touches the path. |
| `Review.CriticalBlocks` | client/src/components/MistakeReview.tsx:59-70 | Returns the submitted blocks that touch the path, in their order. |
| `Review.ColorName` | client/src/components/MistakeReview.tsx:73-81 | The name is one of the five palette names or "colored". The gray code names "gray". |
| `Review.ColorNames` | client/src/components/MistakeReview.tsx:73-81 | One name per block, in order. |
| `Review.IndexOf` | client/src/components/MistakeReview.tsx:82 | Returns −1 exactly when the value is absent, and otherwise its first position. |
| `Review.KeepFirstMembers` | client/src/components/MistakeReview.tsx:82 | The first-occurrence filter keeps every value that occurs in the scanned prefix. |
| `Review.KeepFirstDistinct` | client/src/components/MistakeReview.tsx:82 | The first-occurrence filter never keeps a value twice. |
| `Review.KeepFirstOrdered` | client/src/components/MistakeReview.tsx:82 | The values kept from a prefix all first occur inside it, and they are kept in the order of their first occurrences. |
| `Review.Dedup` | client/src/components/MistakeReview.tsx:82 | Deduplication keeps exactly the values of the list, each once, in the order in which they first appear. A non-empty list stays non-empty. |
| `Review.CriticalColors` | client/src/components/MistakeReview.tsx:72-82 | The colour names of the critical blocks, without repeats, in the order in which they first appear among the critical blocks' names. There is at least one when some block is critical, and exactly the names of the critical blocks occur. |
| `Review.ReasonFor` | client/src/components/MistakeReview.tsx:72-87 | No critical block gives the indirect-blockage sentence. One colour gives "The <colour> block is blocking the optimal path." Several give "The" with the comma-joined colours and "blocks are blocking the optimal path." Any critical block gives a sentence starting with "The ". |
| `Review.BlockingReason` | client/src/components/MistakeReview.tsx:57-88 | The reason is empty if and only if the attempt carries no recorded blocks. |
| `Review.BlockingReasonCases` | client/src/components/MistakeReview.tsx:57-88 | With recorded blocks, the reason is the indirect-blockage sentence when no recorded block touches the path, and a "The …" sentence when one does. |
| `Review.ReviewAttempt` | client/src/components/MistakeReview.tsx:33-88 | An unknown level gives no review. Otherwise the blocked cells are exactly those covered by the submitted blocks, or the authored ones when none were recorded. The path is a shortest walk on the authored layout, or empty when none exists. The reason is the blocking reason for that path. |
| `Review.ReviewMistakes` | client/src/components/MistakeReview.tsx:9-88 | One review per wrong attempt, in order, each as above. |
| `Review.Level1Row2Covered` | client/src/data/puzzleLevels.ts:33-38 | On level 1 as authored every cell of row 2 is covered. |
| `Review.Level1WalkStaysInRow3` | client/src/data/puzzleLevels.ts:24-40 | Every walk from level 1's start cell stays in row 3. |
| `Review.Level1PristineUnreachable` | client/src/data/puzzleLevels.ts:24-40 | No walk on level 1 as authored reaches its end cell. |
| `Review.Level1ReviewIsIndirect` | client/src/components/MistakeReview.tsx:42-87 | Every review of a wrong level-1 submission with recorded blocks has an empty optimal path and the indirect-blockage sentence. |
| `Text.NatToString` | client/src/components/GameHeader.tsx:24 | The decimal text of a number is non-empty and all digits. It is a single digit exactly for numbers below 10. |
| `Text.IntToString` | client/src/components/SummaryDashboard.tsx:68 | A non-negative number renders as its decimal digits, which read back as the number. A negative one renders as "-" followed by digits that read back as its magnitude. |
| `Text.ParseNatToString` | client/src/components/SummaryDashboard.tsx:68 | Reading back the decimal text of a number gives the number. |
| `Text.PadStart` | client/src/components/GameHeader.tsx:24 | A text at least as wide is unchanged. A shorter one is filled on the left to exactly the width, and ends with the original. |
| `Text.TruncRem` | client/src/components/GameHeader.tsx:23 | JavaScript's remainder: it agrees with the mathematical remainder for non-negative operands, lies strictly between −b and b, and has the dividend's sign. |
| `Text.Join` | client/src/components/MistakeReview.tsx:84 | Joining no parts gives the empty text, and joining one part gives that part. |

## Left out

- The pixel geometry is left out: cell sizes, pointer offsets, `Math.round` of coordinates and window resizing. Every drag is modelled by the whole cell under the pointer (`ClampDrag`'s raw cell, `BallTarget`'s raw cell).
- The choice of a ball drag's direction from the first 10 pixels of pointer movement is left out. The direction is a parameter.
- The ball's position fields in the store (`ballRow`, `ballCol`, `moveBall`, `checkWinCondition`) belong to store code that is not part of this model. `HandleBallDrop` returns the new ball cell instead of writing it to the store.
- The 300 ms delayed win check that calls `nextLevel` after a ball drop is left out. It is timer scheduling around `checkWinCondition`, which is not part of this model.
- The one-second `setInterval` scheduling of the countdown is left out. `Tick` is one firing of it.
- Rendering is left out: JSX, the mini-grids of the review screen, the theme toggle, icons and CSS.
- The summary's completion-rate percentage is floating-point division for display and is left out.
- JavaScript renders very large numbers in exponent form. `IntToString` always writes plain decimal digits.
- The occupied and visited sets of the search and the review's blocked cells are keyed by `"row,col"` strings in the source. The model uses sets of `Cell` values, which identify the same cells.
- The colour map of the review is a plain object, so a colour string equal to an inherited property name would look up that property. `ColorName` treats every other string as "colored".
- `Store.MotionGame.SetCurrentLevel`: requires an index inside the catalog. With any other index the source fails on the missing level, and that failure is not modelled.
- `Review.BlockingReasonCases`: does not state that the indirect-blockage sentence differs from every "The …" sentence. The characters of long string literals are not available to the prover, only their lengths.
- `Summary.ScoreBounds`: requires that no correct attempt has a negative time. A negative time can arise only after `setTimer` was given more than 90 seconds, and the score's upper bound does not hold then.
- `Text.Join`: states only the zero- and one-part cases. The separator placement for several parts is its definition.
- The server, the shared schema, `App.tsx`, `MotionGame.tsx` and `GameControls.tsx` are wiring and layout and are not part of this model.
