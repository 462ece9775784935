/** The mistake review: for every wrong submission, the cells its layout
    blocks, the shortest path on the level's authored layout, the blocks of
    the submitted layout lying on that path, and the sentence that explains
    the failure by their colours. */
module Review {
  import opened Options
  import opened Levels
  import opened Text
  import opened Pathfinding
  import opened Store
  import opened Summary

  // ---------------------------------------------------------------------------
  // Blocks on the optimal path

  /** Some cell of `path` lies in the footprint of `block`. */
  ghost predicate TouchesPath(block: Block, path: seq<Cell>) {
    exists k :: 0 <= k < |path| && InFootprint(block, path[k])
  }

  /** The test inside criticalBlocks' filter: walk the block's footprint row by
      row and compare each cell with every path cell, stopping at the first
      match. */
  method Touches(block: Block, path: seq<Cell>) returns (touches: bool)
    ensures touches <==> TouchesPath(block, path)
  {
    var r := block.row;
    while r < block.row + block.height
      invariant block.row <= r
      invariant forall k :: 0 <= k < |path| && InFootprint(block, path[k]) ==> path[k].row >= r
    {
      var c := block.col;
      while c < block.col + block.width
        invariant block.col <= c
        invariant forall k :: 0 <= k < |path| && InFootprint(block, path[k]) ==>
          path[k].row > r || (path[k].row == r && path[k].col >= c)
      {
        for i := 0 to |path|
          invariant forall k :: 0 <= k < i ==> path[k] != Cell(r, c)
        {
          if path[i].row == r && path[i].col == c {
            assert InFootprint(block, path[i]);
            return true;
          }
        }
        c := c + 1;
      }
      r := r + 1;
    }
    return false;
  }

  /** The blocks of `blocks` that touch the path, in their order. */
  ghost function Critical(blocks: seq<Block>, path: seq<Cell>): (r: seq<Block>)
    ensures |r| <= |blocks|
  {
    if blocks == [] then []
    else
      var last := blocks[|blocks| - 1];
      Critical(blocks[..|blocks| - 1], path) + (if TouchesPath(last, path) then [last] else [])
  }

  /** A block is critical exactly when it is one of the blocks and touches the path. */
  lemma {:induction false} CriticalMembers(blocks: seq<Block>, path: seq<Cell>)
    ensures forall b :: b in Critical(blocks, path) <==> b in blocks && TouchesPath(b, path)
    decreases |blocks|
  {
    if blocks != [] {
      var front := blocks[..|blocks| - 1];
      assert blocks == front + [blocks[|blocks| - 1]];
      CriticalMembers(front, path);
    }
  }

  /** criticalBlocks: the submitted blocks lying on the optimal path. */
  method CriticalBlocks(blocks: seq<Block>, path: seq<Cell>) returns (critical: seq<Block>)
    ensures critical == Critical(blocks, path)
  {
    critical := [];
    for i := 0 to |blocks|
      invariant critical == Critical(blocks[..i], path)
    {
      var t := Touches(blocks[i], path);
      assert blocks[..i + 1][..i] == blocks[..i];
      if t {
        critical := critical + [blocks[i]];
      }
    }
    assert blocks[..|blocks|] == blocks;
  }

  // ---------------------------------------------------------------------------
  // Colour names

  /** The name shown for a block colour: the five palette codes by name,
      anything else as "colored". */
  function ColorName(color: string): (name: string)
    ensures color == Gray ==> name == "gray"
    ensures name in ["orange", "blue", "green", "purple", "gray", "colored"]
  {
    if color == "#FF9800" then "orange"
    else if color == "#2196F3" then "blue"
    else if color == "#4CAF50" then "green"
    else if color == "#9C27B0" then "purple"
    else if color == "#BDBDBD" then "gray"
    else "colored"
  }

  function ColorNames(blocks: seq<Block>): (names: seq<string>)
    ensures |names| == |blocks|
    ensures forall i :: 0 <= i < |blocks| ==> names[i] == ColorName(blocks[i].color)
  {
    seq(|blocks|, i requires 0 <= i < |blocks| => ColorName(blocks[i].color))
  }

  /** `a.indexOf(v)`: the first position of `v`, or -1. */
  function IndexOf(a: seq<string>, v: string): (r: int)
    ensures r == -1 <==> v !in a
    ensures r != -1 ==> 0 <= r < |a| && a[r] == v && forall j :: 0 <= j < r ==> a[j] != v
  {
    if |a| == 0 then -1
    else if a[0] == v then 0
    else
      var r := IndexOf(a[1..], v);
      assert forall j :: 1 <= j < |a| ==> a[j] == a[1..][j - 1];
      if r == -1 then -1 else r + 1
  }

  /** The filter `(v, i, a) => a.indexOf(v) === i` over the first `n` positions:
      each value at its first occurrence. */
  function KeepFirst(a: seq<string>, n: nat): seq<string>
    requires n <= |a|
  {
    if n == 0 then []
    else KeepFirst(a, n - 1) + (if IndexOf(a, a[n - 1]) == n - 1 then [a[n - 1]] else [])
  }


  lemma {:induction false} KeepFirstMembers(a: seq<string>, n: nat)
    requires n <= |a|
    ensures forall v :: v in KeepFirst(a, n) <==> exists i :: 0 <= i < n && a[i] == v
  {
    if n > 0 {
      KeepFirstMembers(a, n - 1);
      var v := a[n - 1];
      if IndexOf(a, v) != n - 1 {
        var f := IndexOf(a, v);
        assert 0 <= f < n - 1 && a[f] == v;
      }
    }
  }

  lemma {:induction false} KeepFirstDistinct(a: seq<string>, n: nat)
    requires n <= |a|
    ensures Distinct(KeepFirst(a, n))
  {
    if n > 0 {
      KeepFirstDistinct(a, n - 1);
      KeepFirstMembers(a, n - 1);
      var prefix := KeepFirst(a, n - 1);
      if IndexOf(a, a[n - 1]) == n - 1 {
        assert a[n - 1] !in prefix;
        var kept := prefix + [a[n - 1]];
        forall i, j | 0 <= i < j < |kept|
          ensures kept[i] != kept[j]
        {
          if j == |prefix| {
            assert kept[i] in prefix;
          }
        }
      }
    }
  }

  /** The values kept from the first `n` positions appear in the order of
      their first occurrences, all of them before position `n`. */
  lemma {:induction false} KeepFirstOrdered(a: seq<string>, n: nat)
    requires n <= |a|
    ensures forall i :: 0 <= i < |KeepFirst(a, n)| ==> 0 <= IndexOf(a, KeepFirst(a, n)[i]) < n
    ensures forall i, j :: 0 <= i < j < |KeepFirst(a, n)| ==>
      IndexOf(a, KeepFirst(a, n)[i]) < IndexOf(a, KeepFirst(a, n)[j])
  {
    if n > 0 {
      KeepFirstOrdered(a, n - 1);
      var prefix := KeepFirst(a, n - 1);
      if IndexOf(a, a[n - 1]) == n - 1 {
        var kept := prefix + [a[n - 1]];
        forall i | 0 <= i < |kept|
          ensures 0 <= IndexOf(a, kept[i]) < n
        {
          if i < |prefix| {
            assert kept[i] == prefix[i];
          }
        }
        forall i, j | 0 <= i < j < |kept|
          ensures IndexOf(a, kept[i]) < IndexOf(a, kept[j])
        {
          assert kept[i] == prefix[i];
          if j < |prefix| {
            assert kept[j] == prefix[j];
          }
        }
      } else {
        assert KeepFirst(a, n) == prefix;
      }
    }
  }

  /** The list without repeats, as `filter((v, i, a) => a.indexOf(v) === i)`
      leaves it: every value of the list, each once, in the order in which
      the values first appear. */
  function Dedup(a: seq<string>): (r: seq<string>)
    ensures forall v :: v in r <==> v in a
    ensures Distinct(r)
    ensures forall i, j :: 0 <= i < j < |r| ==> IndexOf(a, r[i]) < IndexOf(a, r[j])
    ensures |a| > 0 ==> |r| > 0
  {
    KeepFirstMembers(a, |a|);
    KeepFirstDistinct(a, |a|);
    KeepFirstOrdered(a, |a|);
    assert |a| > 0 ==> a[0] in KeepFirst(a, |a|);
    KeepFirst(a, |a|)
  }

  /** The colour names of the critical blocks, each once, in order of first appearance. */
  function CriticalColors(critical: seq<Block>): (colors: seq<string>)
    ensures Distinct(colors)
    ensures |critical| > 0 ==> |colors| > 0
    ensures forall v :: v in colors <==> exists i :: 0 <= i < |critical| && v == ColorName(critical[i].color)
    ensures forall i, j :: 0 <= i < j < |colors| ==>
      IndexOf(ColorNames(critical), colors[i]) < IndexOf(ColorNames(critical), colors[j])
  {
    Dedup(ColorNames(critical))
  }

  // ---------------------------------------------------------------------------
  // The explanation

  const IndirectBlockage := "Multiple blocks created an indirect blockage preventing any path to the target."

  /** The endings of the colour sentence: "block" followed by " is" for one
      colour and by "s are" for several, then the rest of the sentence. */
  const OneColorEnding := " block is blocking the optimal path."
  const SeveralColorsEnding := " blocks are blocking the optimal path."

  /** "The ", the colour list, then the ending. */
  function ColorSentence(list: string, ending: string): (sentence: string)
    ensures |sentence| >= 4 && sentence[..4] == "The "
    ensures sentence == "The " + list + ending
  {
    var sentence := "The " + list + ending;
    assert sentence[..4] == "The ";
    sentence
  }

  /** The sentence for a submission with its blocks recorded: the colours of
      the blocks on the optimal path, singular or plural, or the indirect
      blockage message when none lies on it. */
  function ReasonFor(critical: seq<Block>): (reason: string)
    ensures critical == [] ==> reason == IndirectBlockage
    ensures |CriticalColors(critical)| == 1 ==> reason == "The " + CriticalColors(critical)[0] + OneColorEnding
    ensures |CriticalColors(critical)| > 1 ==> reason == "The " + Join(CriticalColors(critical), ", ") + SeveralColorsEnding
    ensures critical != [] ==> |reason| >= 4 && reason[..4] == "The "
  {
    if |critical| > 0 then
      var colors := CriticalColors(critical);
      var ending := if |colors| > 1 then SeveralColorsEnding else OneColorEnding;
      ColorSentence(Join(colors, ", "), ending)
    else IndirectBlockage
  }

  /** blockingReason: empty unless the attempt carries its blocks. */
  ghost function BlockingReason(userBlocks: Option<seq<Block>>, path: seq<Cell>): (reason: string)
    ensures userBlocks.None? <==> reason == ""
  {
    match userBlocks
    case None => ""
    case Some(blocks) => ReasonFor(Critical(blocks, path))
  }

  /** With blocks recorded, the reason is the indirect blockage message when
      no recorded block touches the path, and a sentence naming colours
      otherwise. */
  lemma BlockingReasonCases(userBlocks: Option<seq<Block>>, path: seq<Cell>)
    ensures userBlocks.Some? && (forall b :: b in userBlocks.value ==> !TouchesPath(b, path)) ==>
      BlockingReason(userBlocks, path) == IndirectBlockage
    ensures userBlocks.Some? && (exists b :: b in userBlocks.value && TouchesPath(b, path)) ==>
      |BlockingReason(userBlocks, path)| >= 4 && BlockingReason(userBlocks, path)[..4] == "The "
  {
    if userBlocks.Some? {
      var critical := Critical(userBlocks.value, path);
      CriticalMembers(userBlocks.value, path);
      if critical == [] {
        assert |IndirectBlockage| > 0;
      } else {
        assert critical[0] in critical;
      }
    }
  }

  // ---------------------------------------------------------------------------
  // Reviewing one wrong submission

  datatype AttemptReview = AttemptReview(blockedCells: set<Cell>, optimalPath: seq<Cell>, reason: string)

  /** The grid of a level as authored. */
  function PristineGrid(level: Level): GridState {
    GridState(level.gridRows, level.gridCols, level.blocks)
  }

  /** What the review shows for attempt `a`: nothing when its level is unknown;
      otherwise the cells covered by the submitted blocks (the authored ones
      when none were recorded), a shortest path on the authored layout, and
      the reason for that path. */
  ghost predicate IsReviewOf(catalog: seq<Level>, a: LevelAttempt, review: Option<AttemptReview>) {
    match FindLevel(catalog, a.levelId)
    case None => review.None?
    case Some(level) =>
      && review.Some?
      && (forall c :: c in review.value.blockedCells <==> Covered(a.userBlocks.GetOr(level.blocks), c))
      && ShortestOrNone(PristineGrid(level), level.ballStart, level.ballEnd, review.value.optimalPath)
      && review.value.reason == BlockingReason(a.userBlocks, review.value.optimalPath)
  }

  method ReviewAttempt(catalog: seq<Level>, a: LevelAttempt) returns (review: Option<AttemptReview>)
    ensures IsReviewOf(catalog, a, review)
  {
    var found := FindLevel(catalog, a.levelId);
    if found.None? {
      return None;
    }
    var level := found.value;
    var optimalPath := FindOptimalPath(PristineGrid(level), level.ballStart, level.ballEnd);
    var blockedCells := OccupiedCells(a.userBlocks.GetOr(level.blocks));
    var reason := "";
    if a.userBlocks.Some? {
      var critical := CriticalBlocks(a.userBlocks.value, optimalPath);
      reason := ReasonFor(critical);
    }
    review := Some(AttemptReview(blockedCells, optimalPath, reason));
  }

  /** The review screen: one entry per wrong submission, in order. */
  method ReviewMistakes(catalog: seq<Level>, attempts: seq<LevelAttempt>) returns (reviews: seq<Option<AttemptReview>>)
    ensures |reviews| == |Incorrect(attempts)|
    ensures forall i :: 0 <= i < |reviews| ==> IsReviewOf(catalog, Incorrect(attempts)[i], reviews[i])
  {
    var incorrectAttempts := Incorrect(attempts);
    reviews := [];
    for i := 0 to |incorrectAttempts|
      invariant |reviews| == i
      invariant forall j :: 0 <= j < i ==> IsReviewOf(catalog, incorrectAttempts[j], reviews[j])
    {
      var review := ReviewAttempt(catalog, incorrectAttempts[i]);
      reviews := reviews + [review];
    }
  }

  // ---------------------------------------------------------------------------
  // Level 1 as authored

  /** On level 1 as authored every cell of row 2 is covered. */
  lemma Level1Row2Covered()
    ensures forall col :: 0 <= col < 4 ==> Covered(Level1.blocks, Cell(2, col))
  {
    var blocks := Level1.blocks;
    assert InFootprint(blocks[0], Cell(2, 0));
    assert InFootprint(blocks[1], Cell(2, 1));
    assert InFootprint(blocks[5], Cell(2, 2));
    assert InFootprint(blocks[3], Cell(2, 3));
  }

  /** So a walk from the start cell (3, 0) never leaves row 3. */
  lemma {:induction false} Level1WalkStaysInRow3(w: seq<Cell>, n: nat)
    requires IsWalk(PristineGrid(Level1), Level1.ballStart, w) && n < |w|
    ensures w[n].row == 3
    decreases n
  {
    Level1Row2Covered();
    if n > 0 {
      Level1WalkStaysInRow3(w, n - 1);
      assert Adjacent(w[n - 1], w[n]) && Free(PristineGrid(Level1), w[n]);
    }
  }

  /** The search on level 1 as authored finds no path from start to end. */
  lemma Level1PristineUnreachable()
    ensures forall w :: IsWalk(PristineGrid(Level1), Level1.ballStart, w) ==> Last(w) != Level1.ballEnd
  {
    forall w | IsWalk(PristineGrid(Level1), Level1.ballStart, w)
      ensures Last(w) != Level1.ballEnd
    {
      Level1WalkStaysInRow3(w, |w| - 1);
    }
  }

  /** So the review of any wrong level-1 submission with recorded blocks names
      no colour: its optimal path is empty and the reason is the indirect
      blockage message. */
  lemma Level1ReviewIsIndirect(review: Option<AttemptReview>, a: LevelAttempt)
    requires a.levelId == 1 && a.userBlocks.Some?
    requires IsReviewOf(PuzzleLevels, a, review)
    ensures review.Some? && review.value.optimalPath == []
    ensures review.value.reason == IndirectBlockage
  {
    CatalogLookup(1);
    Level1PristineUnreachable();
    BlockingReasonCases(a.userBlocks, []);
  }
}
