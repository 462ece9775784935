/** The end-of-game summary: folds over the recorded attempts and the level
    catalog giving the counts, totals, the score and its maximum, the fast
    solutions, the levels worth reviewing, and the minutes-and-seconds text.
    The catalog is a parameter; the game passes its constant catalog. */
module Summary {
  import opened Options
  import opened Levels
  import opened LevelFacts
  import opened Text
  import opened Store
  import opened Numbers

  const BaseScore := 200
  const MovePenalty := 3
  const TimePenalty := 2
  /** A correct attempt at most this many seconds long is a fast solution. */
  const FastSeconds := 10

  // ---------------------------------------------------------------------------
  // Filters. Each is written the way `filter` walks the list, one element at
  // a time from the front, so appending an attempt extends the result.

  function Correct(attempts: seq<LevelAttempt>): (r: seq<LevelAttempt>)
    ensures |r| <= |attempts|
  {
    if attempts == [] then []
    else
      var last := attempts[|attempts| - 1];
      Correct(attempts[..|attempts| - 1]) + (if last.isCorrect then [last] else [])
  }

  function Incorrect(attempts: seq<LevelAttempt>): (r: seq<LevelAttempt>)
    ensures |r| <= |attempts|
  {
    if attempts == [] then []
    else
      var last := attempts[|attempts| - 1];
      Incorrect(attempts[..|attempts| - 1]) + (if !last.isCorrect then [last] else [])
  }

  /** Appending one attempt extends each filter by that attempt when it passes. */
  lemma FiltersAppend(catalog: seq<Level>, attempts: seq<LevelAttempt>, a: LevelAttempt)
    ensures Correct(attempts + [a]) == Correct(attempts) + (if a.isCorrect then [a] else [])
    ensures Incorrect(attempts + [a]) == Incorrect(attempts) + (if !a.isCorrect then [a] else [])
    ensures FastSolutions(attempts + [a]) ==
            FastSolutions(attempts) + (if a.isCorrect && a.timeTaken <= FastSeconds then [a] else [])
    ensures ExceededTargetLevels(catalog, attempts + [a]) ==
            ExceededTargetLevels(catalog, attempts) + (if ExceededTarget(catalog, a) then [a] else [])
  {
    assert (attempts + [a])[..|attempts + [a]| - 1] == attempts;
  }

  /** Filtering a concatenation filters each part and keeps their order. */
  lemma {:induction false} FiltersDistribute(xs: seq<LevelAttempt>, ys: seq<LevelAttempt>)
    ensures Correct(xs + ys) == Correct(xs) + Correct(ys)
    ensures Incorrect(xs + ys) == Incorrect(xs) + Incorrect(ys)
    decreases |ys|
  {
    if ys == [] {
      assert xs + ys == xs;
    } else {
      var front, last := ys[..|ys| - 1], ys[|ys| - 1];
      assert ys == front + [last];
      assert xs + ys == (xs + front) + [last];
      FiltersDistribute(xs, front);
      FiltersAppend([], xs + front, last);
      FiltersAppend([], front, last);
    }
  }

  /** Each filter keeps exactly the attempts that pass its test. */
  lemma {:induction false} FilterMembers(catalog: seq<Level>, attempts: seq<LevelAttempt>)
    ensures forall a :: a in Correct(attempts) <==> a in attempts && a.isCorrect
    ensures forall a :: a in Incorrect(attempts) <==> a in attempts && !a.isCorrect
    ensures forall a :: a in FastSolutions(attempts) <==> a in attempts && a.isCorrect && a.timeTaken <= FastSeconds
    ensures forall a :: a in ExceededTargetLevels(catalog, attempts) <==> a in attempts && ExceededTarget(catalog, a)
    decreases |attempts|
  {
    if attempts != [] {
      var front, last := attempts[..|attempts| - 1], attempts[|attempts| - 1];
      assert attempts == front + [last];
      FilterMembers(catalog, front);
      FiltersAppend(catalog, front, last);
    }
  }

  /** The correct and incorrect counts add up to the number of attempts. */
  lemma {:induction false} CountsAddUp(attempts: seq<LevelAttempt>)
    ensures |Correct(attempts)| + |Incorrect(attempts)| == |attempts|
  {
    if attempts != [] {
      CountsAddUp(attempts[..|attempts| - 1]);
    }
  }

  // ---------------------------------------------------------------------------
  // Catalog lookup

  /** `puzzleLevels.find`: the first level with the id. */
  function FindLevel(catalog: seq<Level>, id: int): (r: Option<Level>)
    ensures r.Some? ==> exists i :: 0 <= i < |catalog| && catalog[i] == r.value && r.value.id == id
                                    && forall j :: 0 <= j < i ==> catalog[j].id != id
    ensures r.None? ==> forall j :: 0 <= j < |catalog| ==> catalog[j].id != id
  {
    if |catalog| == 0 then None
    else if catalog[0].id == id then Some(catalog[0])
    else
      var r := FindLevel(catalog[1..], id);
      assert r.Some? ==> exists i :: 0 <= i < |catalog| && catalog[i] == r.value && r.value.id == id
                                     && forall j :: 0 <= j < i ==> catalog[j].id != id by {
        if r.Some? {
          var i :| 0 <= i < |catalog[1..]| && catalog[1..][i] == r.value && r.value.id == id
                   && forall j :: 0 <= j < i ==> catalog[1..][j].id != id;
          assert catalog[i + 1] == r.value;
          assert forall j :: 1 <= j < i + 1 ==> catalog[j] == catalog[1..][j - 1];
        }
      }
      r
  }

  /** In the game's catalog, level `id` is found exactly for ids 1 to 20, and
      it is the level at position id - 1. */
  lemma CatalogLookup(id: int)
    ensures 1 <= id <= LevelCount ==> FindLevel(PuzzleLevels, id) == Some(PuzzleLevels[id - 1])
    ensures !(1 <= id <= LevelCount) ==> FindLevel(PuzzleLevels, id).None?
  {
    CatalogWellFormed();
    var r := FindLevel(PuzzleLevels, id);
    if r.Some? {
      var i :| 0 <= i < |PuzzleLevels| && PuzzleLevels[i] == r.value && r.value.id == id;
    }
  }

  // ---------------------------------------------------------------------------
  // Totals over the correct attempts

  function SumMoves(attempts: seq<LevelAttempt>): (total: int)
    ensures (forall a :: a in attempts ==> a.moves >= 0) ==> total >= 0
  {
    if attempts == [] then 0
    else
      var front := attempts[..|attempts| - 1];
      assert forall a :: a in front ==> a in attempts;
      SumMoves(front) + attempts[|attempts| - 1].moves
  }

  function SumTime(attempts: seq<LevelAttempt>): (total: int)
    ensures (forall a :: a in attempts ==> a.timeTaken >= 0) ==> total >= 0
  {
    if attempts == [] then 0
    else
      var front := attempts[..|attempts| - 1];
      assert forall a :: a in front ==> a in attempts;
      SumTime(front) + attempts[|attempts| - 1].timeTaken
  }

  /** The sums are left folds: one more element adds its own value. */
  lemma SumsAppend(catalog: seq<Level>, attempts: seq<LevelAttempt>, a: LevelAttempt)
    ensures SumMoves(attempts + [a]) == SumMoves(attempts) + a.moves
    ensures SumTime(attempts + [a]) == SumTime(attempts) + a.timeTaken
    ensures SumOptimal(catalog, attempts + [a]) == SumOptimal(catalog, attempts) + OptimalMoves(catalog, a)
    ensures SumScore(catalog, attempts + [a]) == SumScore(catalog, attempts) + AttemptScore(catalog, a)
  {
    assert (attempts + [a])[..|attempts + [a]| - 1] == attempts;
  }

  /** The target move count of an attempt's level, 0 when the level is unknown. */
  function OptimalMoves(catalog: seq<Level>, a: LevelAttempt): (target: int)
    ensures FindLevel(catalog, a.levelId).None? ==> target == 0
    ensures (forall l :: l in catalog ==> l.minMoves >= 0) ==> target >= 0
  {
    match FindLevel(catalog, a.levelId)
    case None => 0
    case Some(level) => level.minMoves
  }

  function SumOptimal(catalog: seq<Level>, attempts: seq<LevelAttempt>): (total: int)
    ensures (forall l :: l in catalog ==> l.minMoves >= 0) ==> total >= 0
  {
    if attempts == [] then 0
    else SumOptimal(catalog, attempts[..|attempts| - 1]) + OptimalMoves(catalog, attempts[|attempts| - 1])
  }

  /** The moves spent on the correct attempts. */
  function TotalMoves(attempts: seq<LevelAttempt>): (total: int)
    ensures Correct(attempts) == [] ==> total == 0
    ensures (forall a :: a in attempts ==> a.moves >= 0) ==> total >= 0
  {
    FilterMembers([], attempts);
    SumMoves(Correct(attempts))
  }

  /** The seconds spent on the correct attempts. */
  function TotalTime(attempts: seq<LevelAttempt>): (total: int)
    ensures Correct(attempts) == [] ==> total == 0
    ensures (forall a :: a in attempts ==> a.timeTaken >= 0) ==> total >= 0
  {
    FilterMembers([], attempts);
    SumTime(Correct(attempts))
  }

  /** The targets of the levels of the correct attempts. */
  function TotalOptimalMoves(catalog: seq<Level>, attempts: seq<LevelAttempt>): (total: int)
    ensures Correct(attempts) == [] ==> total == 0
    ensures (forall l :: l in catalog ==> l.minMoves >= 0) ==> total >= 0
  {
    SumOptimal(catalog, Correct(attempts))
  }

  /** A wrong submission changes none of the totals; a correct one adds its
      own moves, time and target. */
  lemma {:induction false} TotalsAppend(catalog: seq<Level>, attempts: seq<LevelAttempt>, a: LevelAttempt)
    ensures TotalMoves(attempts + [a]) == TotalMoves(attempts) + (if a.isCorrect then a.moves else 0)
    ensures TotalTime(attempts + [a]) == TotalTime(attempts) + (if a.isCorrect then a.timeTaken else 0)
    ensures TotalOptimalMoves(catalog, attempts + [a]) ==
            TotalOptimalMoves(catalog, attempts) + (if a.isCorrect then OptimalMoves(catalog, a) else 0)
  {
    FiltersAppend(catalog, attempts, a);
    var c := Correct(attempts);
    if a.isCorrect {
      SumsAppend(catalog, c, a);
    } else {
      assert Correct(attempts + [a]) == c;
    }
  }

  // ---------------------------------------------------------------------------
  // Score

  /** The score of one correct attempt at a known level: 200 less 3 per move
      beyond the target and 2 per second, never below 0. */
  function LevelScore(level: Level, a: LevelAttempt): (score: int)
    ensures score >= 0
    ensures a.timeTaken >= 0 ==> score <= BaseScore
    ensures a.moves <= level.minMoves && a.timeTaken == 0 ==> score == BaseScore
  {
    var extraMoves := Max(0, a.moves - level.minMoves);
    Max(0, BaseScore - MovePenalty * extraMoves - TimePenalty * a.timeTaken)
  }

  /** More moves or more time never raise the score. */
  lemma LevelScoreMonotone(level: Level, a: LevelAttempt, b: LevelAttempt)
    requires a.moves <= b.moves && a.timeTaken <= b.timeTaken
    ensures LevelScore(level, b) <= LevelScore(level, a)
  {
  }

  /** What one correct attempt adds to the score: nothing when its level is
      not in the catalog. */
  function AttemptScore(catalog: seq<Level>, a: LevelAttempt): (score: int)
    ensures score >= 0
    ensures a.timeTaken >= 0 ==> score <= BaseScore
    ensures FindLevel(catalog, a.levelId).None? ==> score == 0
  {
    match FindLevel(catalog, a.levelId)
    case None => 0
    case Some(level) => LevelScore(level, a)
  }

  function SumScore(catalog: seq<Level>, attempts: seq<LevelAttempt>): (total: int)
    ensures total >= 0
  {
    if attempts == [] then 0
    else SumScore(catalog, attempts[..|attempts| - 1]) + AttemptScore(catalog, attempts[|attempts| - 1])
  }

  /** The total score: the sum over the correct attempts. */
  function Score(catalog: seq<Level>, attempts: seq<LevelAttempt>): (score: int)
    ensures score >= 0
    ensures Correct(attempts) == [] ==> score == 0
  {
    SumScore(catalog, Correct(attempts))
  }

  /** The best total the correct attempts could have scored: 200 each. */
  function MaxPossibleScore(attempts: seq<LevelAttempt>): (max: int)
    ensures max >= 0 && max % BaseScore == 0
    ensures max == 0 <==> Correct(attempts) == []
  {
    |Correct(attempts)| * BaseScore
  }

  lemma {:induction false} SumScoreBounds(catalog: seq<Level>, attempts: seq<LevelAttempt>)
    requires forall a :: a in attempts ==> a.timeTaken >= 0
    ensures SumScore(catalog, attempts) <= |attempts| * BaseScore
  {
    if attempts != [] {
      var front := attempts[..|attempts| - 1];
      assert forall a :: a in front ==> a in attempts;
      SumScoreBounds(catalog, front);
    }
  }

  /** The score lies between 0 and the maximum possible score, as long as no
      correct attempt records a negative time. */
  lemma ScoreBounds(catalog: seq<Level>, attempts: seq<LevelAttempt>)
    requires forall a :: a in attempts && a.isCorrect ==> a.timeTaken >= 0
    ensures 0 <= Score(catalog, attempts) <= MaxPossibleScore(attempts)
  {
    FilterMembers(catalog, attempts);
    SumScoreBounds(catalog, Correct(attempts));
  }

  /** A wrong submission leaves the score alone; a correct one adds its own
      score, and raises the maximum by 200. */
  lemma ScoreAppend(catalog: seq<Level>, attempts: seq<LevelAttempt>, a: LevelAttempt)
    ensures Score(catalog, attempts + [a]) == Score(catalog, attempts) + (if a.isCorrect then AttemptScore(catalog, a) else 0)
    ensures MaxPossibleScore(attempts + [a]) == MaxPossibleScore(attempts) + (if a.isCorrect then BaseScore else 0)
  {
    FiltersAppend(catalog, attempts, a);
    var c := Correct(attempts);
    if a.isCorrect {
      SumsAppend(catalog, c, a);
    } else {
      assert Correct(attempts + [a]) == c;
    }
  }

  /** A single correct attempt at a known level within its target and with no
      time spent scores the full 200. */
  lemma SingleAttemptScore(catalog: seq<Level>, a: LevelAttempt, level: Level)
    requires FindLevel(catalog, a.levelId) == Some(level)
    requires a.isCorrect && a.moves <= level.minMoves && a.timeTaken == 0
    ensures Score(catalog, [a]) == BaseScore == MaxPossibleScore([a])
  {
    ScoreAppend(catalog, [], a);
    assert [] + [a] == [a];
  }

  // ---------------------------------------------------------------------------
  // Fast solutions and review lists

  function FastSolutions(attempts: seq<LevelAttempt>): (r: seq<LevelAttempt>)
    ensures |r| <= |attempts|
  {
    if attempts == [] then []
    else
      var last := attempts[|attempts| - 1];
      FastSolutions(attempts[..|attempts| - 1]) + (if last.isCorrect && last.timeTaken <= FastSeconds then [last] else [])
  }

  /** There are never more fast solutions than correct attempts. */
  lemma {:induction false} FastAtMostCorrect(attempts: seq<LevelAttempt>)
    ensures |FastSolutions(attempts)| <= |Correct(attempts)|
  {
    if attempts != [] {
      FastAtMostCorrect(attempts[..|attempts| - 1]);
    }
  }

  /** The correct attempts at a known level that used more moves than its target. */
  predicate ExceededTarget(catalog: seq<Level>, a: LevelAttempt) {
    a.isCorrect && match FindLevel(catalog, a.levelId)
                   case None => false
                   case Some(level) => a.moves > level.minMoves
  }

  function ExceededTargetLevels(catalog: seq<Level>, attempts: seq<LevelAttempt>): (r: seq<LevelAttempt>)
    ensures |r| <= |attempts|
  {
    if attempts == [] then []
    else
      var last := attempts[|attempts| - 1];
      ExceededTargetLevels(catalog, attempts[..|attempts| - 1]) + (if ExceededTarget(catalog, last) then [last] else [])
  }

  lemma {:induction false} ExceededAtMostCorrect(catalog: seq<Level>, attempts: seq<LevelAttempt>)
    ensures |ExceededTargetLevels(catalog, attempts)| <= |Correct(attempts)|
  {
    if attempts != [] {
      ExceededAtMostCorrect(catalog, attempts[..|attempts| - 1]);
    }
  }

  /** The levels to review: the wrong submissions in order, then the correct
      ones that went over the target. */
  function ReviewableLevels(catalog: seq<Level>, attempts: seq<LevelAttempt>): (r: seq<LevelAttempt>)
    ensures |r| <= |attempts|
  {
    CountsAddUp(attempts);
    ExceededAtMostCorrect(catalog, attempts);
    Incorrect(attempts) + ExceededTargetLevels(catalog, attempts)
  }

  /** The two parts of the review list share no attempt, and the list holds
      exactly the wrong submissions and the correct ones over the target. */
  lemma ReviewableParts(catalog: seq<Level>, attempts: seq<LevelAttempt>)
    ensures forall a :: a in Incorrect(attempts) ==> a !in ExceededTargetLevels(catalog, attempts)
    ensures forall a :: a in ReviewableLevels(catalog, attempts) <==>
      a in attempts && (!a.isCorrect || ExceededTarget(catalog, a))
  {
    FilterMembers(catalog, attempts);
  }

  /** When no correct attempt went over its target and every correct attempt
      is at a known level, the moves spent are at most the target total. */
  lemma {:induction false} WithinTargetsMovesBounded(catalog: seq<Level>, attempts: seq<LevelAttempt>)
    requires forall a :: a in attempts && a.isCorrect ==> FindLevel(catalog, a.levelId).Some?
    requires ExceededTargetLevels(catalog, attempts) == []
    ensures TotalMoves(attempts) <= TotalOptimalMoves(catalog, attempts)
    decreases |attempts|
  {
    if attempts != [] {
      var front := attempts[..|attempts| - 1];
      var last := attempts[|attempts| - 1];
      assert attempts == front + [last];
      assert forall a :: a in front ==> a in attempts;
      WithinTargetsMovesBounded(catalog, front);
      TotalsAppend(catalog, front, last);
    }
  }

  // ---------------------------------------------------------------------------
  // Durations

  /** formatTime of the summary: whole minutes, "m ", the remaining seconds,
      "s". For a non-negative duration the text reads back as the minutes and
      the seconds below 60 that make it up. */
  function FormatDuration(seconds: int): (text: string)
    ensures seconds >= 0 ==> exists mins: string, secs: string ::
      && AllDigits(mins) && AllDigits(secs)
      && text == mins + "m " + secs + "s"
      && ParseNat(secs) < 60 && ParseNat(mins) * 60 + ParseNat(secs) == seconds
  {
    var text := IntToString(seconds / 60) + "m " + IntToString(TruncRem(seconds, 60)) + "s";
    if seconds < 0 then text
    else
      assert text == NatToString(seconds / 60) + "m " + NatToString(seconds % 60) + "s";
      text
  }
}
