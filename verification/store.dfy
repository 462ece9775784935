/** The game session store: the current level, the player's working copy of
    its blocks, the move counter, the countdown, the screen flags and the
    append-only record of submitted attempts. Each action is a method that
    reassigns exactly the fields the store's `set` call names. */
module Store {
  import opened Options
  import opened Levels
  import opened LevelFacts

  /** One submitted level. The player's blocks are kept only for a wrong
      submission, for the mistake review. */
  datatype LevelAttempt = LevelAttempt(
    levelId: int,
    moves: int,
    isCorrect: bool,
    timeTaken: int,
    userBlocks: Option<seq<Block>>)

  /** Seconds on the countdown when a level is loaded. */
  const LevelSeconds := 90

  class MotionGame {
    var currentLevelIndex: int
    var blocks: seq<Block>
    var moves: int
    var timer: int
    var isPlaying: bool
    var isPaused: bool
    var levelAttempts: seq<LevelAttempt>
    var gameCompleted: bool
    var showSummary: bool
    var showMistakeReview: bool

    /** The current index always names a level of the catalog. */
    predicate Valid()
      reads this
    {
      0 <= currentLevelIndex < |PuzzleLevels|
    }

    /** The fields a freshly loaded level starts from. */
    predicate FreshLevel(index: int)
      reads this
      requires 0 <= index < |PuzzleLevels|
    {
      && currentLevelIndex == index
      && blocks == PuzzleLevels[index].blocks
      && moves == 0
      && timer == LevelSeconds
      && !isPlaying
      && !isPaused
    }

    /** The store's initial state: the first level, untouched, nothing recorded. */
    constructor ()
      ensures Valid()
      ensures FreshLevel(0)
      ensures levelAttempts == []
      ensures !gameCompleted && !showSummary && !showMistakeReview
    {
      currentLevelIndex := 0;
      blocks := PuzzleLevels[0].blocks;
      moves := 0;
      timer := LevelSeconds;
      isPlaying := false;
      isPaused := false;
      levelAttempts := [];
      gameCompleted := false;
      showSummary := false;
      showMistakeReview := false;
    }

    /** The six fields every level change resets. */
    method LoadLevel(index: int)
      requires 0 <= index < |PuzzleLevels|
      modifies this
      ensures Valid() && FreshLevel(index)
      ensures levelAttempts == old(levelAttempts)
      ensures gameCompleted == old(gameCompleted) && showSummary == old(showSummary)
      ensures showMistakeReview == old(showMistakeReview)
    {
      currentLevelIndex := index;
      blocks := PuzzleLevels[index].blocks;
      moves := 0;
      timer := LevelSeconds;
      isPlaying := false;
      isPaused := false;
    }

    /** setCurrentLevel. An index outside the catalog makes the source fail
        on the missing level before it changes anything. */
    method SetCurrentLevel(index: int)
      requires 0 <= index < |PuzzleLevels|
      modifies this
      ensures Valid() && FreshLevel(index)
      ensures levelAttempts == old(levelAttempts)
      ensures gameCompleted == old(gameCompleted) && showSummary == old(showSummary)
      ensures showMistakeReview == old(showMistakeReview)
    {
      LoadLevel(index);
    }

    method UpdateBlocks(newBlocks: seq<Block>)
      modifies this`blocks
      ensures blocks == newBlocks
    {
      blocks := newBlocks;
    }

    method IncrementMoves()
      modifies this`moves
      ensures moves == old(moves) + 1
    {
      moves := moves + 1;
    }

    method SetTimer(time: int)
      modifies this`timer
      ensures timer == time
    {
      timer := time;
    }

    method StartPlaying()
      modifies this`isPlaying, this`isPaused
      ensures isPlaying && !isPaused
    {
      isPlaying, isPaused := true, false;
    }

    method PauseGame()
      modifies this`isPaused
      ensures isPaused
    {
      isPaused := true;
    }

    method ResumeGame()
      modifies this`isPaused
      ensures !isPaused
    {
      isPaused := false;
    }

    /** The attempt submitSolution records for the current state. */
    function CurrentAttempt(isCorrect: bool): (a: LevelAttempt)
      reads this
      requires Valid()
      ensures a.levelId == PuzzleLevels[currentLevelIndex].id
      ensures a.moves == moves && a.isCorrect == isCorrect
      ensures a.timeTaken + timer == LevelSeconds
      ensures a.userBlocks.Some? <==> !isCorrect
      ensures a.userBlocks.Some? ==> a.userBlocks.value == blocks
    {
      LevelAttempt(
        PuzzleLevels[currentLevelIndex].id,
        moves,
        isCorrect,
        LevelSeconds - timer,
        if isCorrect then None else Some(blocks))
    }

    /** submitSolution: appends exactly one attempt and pauses. */
    method SubmitSolution(isCorrect: bool)
      requires Valid()
      modifies this`levelAttempts, this`isPaused
      ensures levelAttempts == old(levelAttempts) + [CurrentAttempt(isCorrect)]
      ensures isPaused
    {
      levelAttempts := levelAttempts + [CurrentAttempt(isCorrect)];
      isPaused := true;
    }

    /** nextLevel: loads the following level, or at the last level ends the
        game. It records no attempt either way. */
    method NextLevel()
      requires Valid()
      modifies this
      ensures Valid()
      ensures levelAttempts == old(levelAttempts)
      ensures old(currentLevelIndex) < |PuzzleLevels| - 1 ==>
        && FreshLevel(old(currentLevelIndex) + 1)
        && gameCompleted == old(gameCompleted) && showSummary == old(showSummary)
        && showMistakeReview == old(showMistakeReview)
      ensures old(currentLevelIndex) == |PuzzleLevels| - 1 ==>
        && gameCompleted && showSummary && !isPlaying
        && currentLevelIndex == old(currentLevelIndex) && blocks == old(blocks)
        && moves == old(moves) && timer == old(timer) && isPaused == old(isPaused)
        && showMistakeReview == old(showMistakeReview)
    {
      if currentLevelIndex < |PuzzleLevels| - 1 {
        LoadLevel(currentLevelIndex + 1);
      } else {
        CompleteGame();
      }
    }

    /** restartLevel: the current level again from its authored layout. */
    method RestartLevel()
      requires Valid()
      modifies this
      ensures Valid() && FreshLevel(old(currentLevelIndex))
      ensures levelAttempts == old(levelAttempts)
      ensures gameCompleted == old(gameCompleted) && showSummary == old(showSummary)
      ensures showMistakeReview == old(showMistakeReview)
    {
      LoadLevel(currentLevelIndex);
    }

    /** resetGame: back to the initial state. */
    method ResetGame()
      modifies this
      ensures Valid() && FreshLevel(0)
      ensures levelAttempts == []
      ensures !gameCompleted && !showSummary && !showMistakeReview
    {
      LoadLevel(0);
      levelAttempts := [];
      gameCompleted := false;
      showSummary := false;
      showMistakeReview := false;
    }

    method CompleteGame()
      modifies this`gameCompleted, this`isPlaying, this`showSummary
      ensures gameCompleted && !isPlaying && showSummary
    {
      gameCompleted, isPlaying, showSummary := true, false, true;
    }

    method ShowSummaryDashboard()
      modifies this`showSummary
      ensures showSummary
    {
      showSummary := true;
    }

    method ToggleMistakeReview()
      modifies this`showMistakeReview
      ensures showMistakeReview == !old(showMistakeReview)
    {
      showMistakeReview := !showMistakeReview;
    }

    function GetCurrentLevel(): (level: Level)
      reads this
      requires Valid()
      ensures level in PuzzleLevels
      ensures level.id == currentLevelIndex + 1
    {
      CatalogWellFormed();
      PuzzleLevels[currentLevelIndex]
    }
  }

  /** Opening and closing the mistake review leaves it as it was. */
  method ToggleTwice(game: MotionGame)
    modifies game`showMistakeReview
    ensures game.showMistakeReview == old(game.showMistakeReview)
  {
    game.ToggleMistakeReview();
    game.ToggleMistakeReview();
  }

  /** Playing a level to the end of the catalog: a correct submission followed
      by nextLevel keeps the one new attempt and, below the last level, moves
      to the next level with its authored blocks. */
  method SubmitAndAdvance(game: MotionGame)
    requires game.Valid()
    modifies game
    ensures game.Valid()
    ensures |game.levelAttempts| == |old(game.levelAttempts)| + 1
    ensures game.levelAttempts[..|old(game.levelAttempts)|] == old(game.levelAttempts)
    ensures game.levelAttempts[|old(game.levelAttempts)|].isCorrect
    ensures game.levelAttempts[|old(game.levelAttempts)|].levelId == old(game.currentLevelIndex) + 1
    ensures old(game.currentLevelIndex) < LevelCount - 1 ==> game.FreshLevel(old(game.currentLevelIndex) + 1)
    ensures old(game.currentLevelIndex) == LevelCount - 1 ==> game.gameCompleted && game.showSummary
  {
    CatalogWellFormed();
    game.SubmitSolution(true);
    game.NextLevel();
  }

  /** Calling nextLevel over and over from any level of a game that is not
      yet completed ends the game on the last level after exactly one call
      per remaining level, with the attempt record untouched. */
  method AdvanceToEnd(game: MotionGame) returns (calls: nat)
    requires game.Valid() && !game.gameCompleted
    modifies game
    ensures game.Valid() && game.gameCompleted && game.showSummary
    ensures game.currentLevelIndex == LevelCount - 1
    ensures game.levelAttempts == old(game.levelAttempts)
    ensures calls == LevelCount - old(game.currentLevelIndex)
  {
    CatalogWellFormed();
    calls := 0;
    ghost var start := game.currentLevelIndex;
    while !game.gameCompleted
      invariant game.Valid()
      invariant game.levelAttempts == old(game.levelAttempts)
      invariant !game.gameCompleted ==> game.currentLevelIndex == start + calls
      invariant game.gameCompleted ==> game.showSummary && game.currentLevelIndex == LevelCount - 1
      invariant game.gameCompleted ==> calls == LevelCount - start
      decreases 2 * (LevelCount - game.currentLevelIndex) + (if game.gameCompleted then 0 else 1)
    {
      game.NextLevel();
      calls := calls + 1;
    }
  }
}
