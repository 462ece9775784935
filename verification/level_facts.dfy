/** Facts about the authored catalog: the invariants it keeps, and the
    "obvious" ones it breaks. */
module LevelFacts {
  import opened Levels

  /** No cell lies in the footprints of two different blocks. */
  ghost predicate PairwiseDisjoint(blocks: seq<Block>) {
    forall i, j, c :: 0 <= i < j < |blocks| && InFootprint(blocks[i], c) ==> !InFootprint(blocks[j], c)
  }

  /** Every block of the level is well shaped and lies inside its grid. */
  predicate BlocksFit(l: Level) {
    && (forall i :: 0 <= i < |l.blocks| ==> WellShaped(l.blocks[i]))
    && (forall i :: 0 <= i < |l.blocks| ==> InsideGrid(l.blocks[i], l.gridRows, l.gridCols))
  }

  /** The id of block `j` differs from the ids of all blocks before it. */
  predicate NewId(blocks: seq<Block>, j: int)
    requires 0 <= j < |blocks|
  {
    forall i :: 0 <= i < j ==> blocks[i].id != blocks[j].id
  }

  /** Ids are unique when each block's id is new with respect to the blocks
      before it; this lets a long block list be checked a few rows at a time. */
  lemma UniqueIdsByRows(blocks: seq<Block>)
    requires forall j :: 0 <= j < |blocks| ==> NewId(blocks, j)
    ensures UniqueIds(blocks)
  {
    forall i, j | 0 <= i < j < |blocks|
      ensures blocks[i].id != blocks[j].id
    {
      assert NewId(blocks, j);
    }
  }

  lemma Level20IdsFirstRows()
    ensures var b := Level20.blocks; NewId(b, 0) && NewId(b, 1) && NewId(b, 2) && NewId(b, 3) && NewId(b, 4)
  {
  }

  lemma Level20IdsMiddleRows()
    ensures var b := Level20.blocks; NewId(b, 5) && NewId(b, 6) && NewId(b, 7) && NewId(b, 8)
  {
  }

  lemma Level20IdsLastRows()
    ensures var b := Level20.blocks; NewId(b, 9) && NewId(b, 10) && NewId(b, 11) && NewId(b, 12)
  {
  }

  /** The thirteen blocks of level 20 have unique ids. */
  lemma Level20IdsUnique()
    ensures UniqueIds(Level20.blocks)
  {
    Level20IdsFirstRows();
    Level20IdsMiddleRows();
    Level20IdsLastRows();
    var b := Level20.blocks;
    forall j | 0 <= j < |b|
      ensures NewId(b, j)
    {
      if j <= 4 {
      } else if j <= 8 {
      } else {
      }
    }
    UniqueIdsByRows(b);
  }

  lemma Level1IdsUnique()
    ensures UniqueIds(Level1.blocks)
  {
  }

  lemma Level1BlocksFit()
    ensures BlocksFit(Level1)
  {
  }

  /** Level 1 is well formed; its parts are proved separately to keep each proof small. */
  lemma Level1WellFormed()
    ensures WellFormedLevel(Level1)
  {
    Level1BlocksFit();
    Level1IdsUnique();
  }

  lemma Level2IdsUnique()
    ensures UniqueIds(Level2.blocks)
  {
  }

  lemma Level2BlocksFit()
    ensures BlocksFit(Level2)
  {
  }

  /** Level 2 is well formed; its parts are proved separately to keep each proof small. */
  lemma Level2WellFormed()
    ensures WellFormedLevel(Level2)
  {
    Level2BlocksFit();
    Level2IdsUnique();
  }

  lemma Level3IdsUnique()
    ensures UniqueIds(Level3.blocks)
  {
  }

  lemma Level3BlocksFit()
    ensures BlocksFit(Level3)
  {
  }

  /** Level 3 is well formed; its parts are proved separately to keep each proof small. */
  lemma Level3WellFormed()
    ensures WellFormedLevel(Level3)
  {
    Level3BlocksFit();
    Level3IdsUnique();
  }

  lemma Level4IdsUnique()
    ensures UniqueIds(Level4.blocks)
  {
  }

  lemma Level4BlocksFit()
    ensures BlocksFit(Level4)
  {
  }

  /** Level 4 is well formed; its parts are proved separately to keep each proof small. */
  lemma Level4WellFormed()
    ensures WellFormedLevel(Level4)
  {
    Level4BlocksFit();
    Level4IdsUnique();
  }

  lemma Level5IdsUnique()
    ensures UniqueIds(Level5.blocks)
  {
  }

  lemma Level5BlocksFit()
    ensures BlocksFit(Level5)
  {
  }

  /** Level 5 is well formed; its parts are proved separately to keep each proof small. */
  lemma Level5WellFormed()
    ensures WellFormedLevel(Level5)
  {
    Level5BlocksFit();
    Level5IdsUnique();
  }

  lemma Level6IdsUnique()
    ensures UniqueIds(Level6.blocks)
  {
  }

  lemma Level6BlocksFit()
    ensures BlocksFit(Level6)
  {
  }

  /** Level 6 is well formed; its parts are proved separately to keep each proof small. */
  lemma Level6WellFormed()
    ensures WellFormedLevel(Level6)
  {
    Level6BlocksFit();
    Level6IdsUnique();
  }

  lemma Level7IdsUnique()
    ensures UniqueIds(Level7.blocks)
  {
  }

  lemma Level7BlocksFit()
    ensures BlocksFit(Level7)
  {
  }

  /** Level 7 is well formed; its parts are proved separately to keep each proof small. */
  lemma Level7WellFormed()
    ensures WellFormedLevel(Level7)
  {
    Level7BlocksFit();
    Level7IdsUnique();
  }

  lemma Level8IdsUnique()
    ensures UniqueIds(Level8.blocks)
  {
  }

  lemma Level8BlocksFit()
    ensures BlocksFit(Level8)
  {
  }

  /** Level 8 is well formed; its parts are proved separately to keep each proof small. */
  lemma Level8WellFormed()
    ensures WellFormedLevel(Level8)
  {
    Level8BlocksFit();
    Level8IdsUnique();
  }

  lemma Level9IdsUnique()
    ensures UniqueIds(Level9.blocks)
  {
  }

  lemma Level9BlocksFit()
    ensures BlocksFit(Level9)
  {
  }

  /** Level 9 is well formed; its parts are proved separately to keep each proof small. */
  lemma Level9WellFormed()
    ensures WellFormedLevel(Level9)
  {
    Level9BlocksFit();
    Level9IdsUnique();
  }

  lemma Level10IdsUnique()
    ensures UniqueIds(Level10.blocks)
  {
  }

  lemma Level10BlocksFit()
    ensures BlocksFit(Level10)
  {
  }

  /** Level 10 is well formed; its parts are proved separately to keep each proof small. */
  lemma Level10WellFormed()
    ensures WellFormedLevel(Level10)
  {
    Level10BlocksFit();
    Level10IdsUnique();
  }

  lemma Level11IdsUnique()
    ensures UniqueIds(Level11.blocks)
  {
  }

  lemma Level11BlocksFit()
    ensures BlocksFit(Level11)
  {
  }

  /** Level 11 is well formed; its parts are proved separately to keep each proof small. */
  lemma Level11WellFormed()
    ensures WellFormedLevel(Level11)
  {
    Level11BlocksFit();
    Level11IdsUnique();
  }

  lemma Level12IdsUnique()
    ensures UniqueIds(Level12.blocks)
  {
  }

  lemma Level12BlocksFit()
    ensures BlocksFit(Level12)
  {
  }

  /** Level 12 is well formed; its parts are proved separately to keep each proof small. */
  lemma Level12WellFormed()
    ensures WellFormedLevel(Level12)
  {
    Level12BlocksFit();
    Level12IdsUnique();
  }

  lemma Level13IdsUnique()
    ensures UniqueIds(Level13.blocks)
  {
  }

  lemma Level13BlocksFit()
    ensures BlocksFit(Level13)
  {
  }

  /** Level 13 is well formed; its parts are proved separately to keep each proof small. */
  lemma Level13WellFormed()
    ensures WellFormedLevel(Level13)
  {
    Level13BlocksFit();
    Level13IdsUnique();
  }

  lemma Level14IdsUnique()
    ensures UniqueIds(Level14.blocks)
  {
  }

  lemma Level14BlocksFit()
    ensures BlocksFit(Level14)
  {
  }

  /** Level 14 is well formed; its parts are proved separately to keep each proof small. */
  lemma Level14WellFormed()
    ensures WellFormedLevel(Level14)
  {
    Level14BlocksFit();
    Level14IdsUnique();
  }

  lemma Level15IdsUnique()
    ensures UniqueIds(Level15.blocks)
  {
  }

  lemma Level15BlocksFit()
    ensures BlocksFit(Level15)
  {
  }

  /** Level 15 is well formed; its parts are proved separately to keep each proof small. */
  lemma Level15WellFormed()
    ensures WellFormedLevel(Level15)
  {
    Level15BlocksFit();
    Level15IdsUnique();
  }

  lemma Level16IdsUnique()
    ensures UniqueIds(Level16.blocks)
  {
  }

  lemma Level16BlocksFit()
    ensures BlocksFit(Level16)
  {
  }

  /** Level 16 is well formed; its parts are proved separately to keep each proof small. */
  lemma Level16WellFormed()
    ensures WellFormedLevel(Level16)
  {
    Level16BlocksFit();
    Level16IdsUnique();
  }

  lemma Level17IdsUnique()
    ensures UniqueIds(Level17.blocks)
  {
  }

  lemma Level17BlocksFit()
    ensures BlocksFit(Level17)
  {
  }

  /** Level 17 is well formed; its parts are proved separately to keep each proof small. */
  lemma Level17WellFormed()
    ensures WellFormedLevel(Level17)
  {
    Level17BlocksFit();
    Level17IdsUnique();
  }

  lemma Level18IdsUnique()
    ensures UniqueIds(Level18.blocks)
  {
  }

  lemma Level18BlocksFit()
    ensures BlocksFit(Level18)
  {
  }

  /** Level 18 is well formed; its parts are proved separately to keep each proof small. */
  lemma Level18WellFormed()
    ensures WellFormedLevel(Level18)
  {
    Level18BlocksFit();
    Level18IdsUnique();
  }

  lemma Level19IdsUnique()
    ensures UniqueIds(Level19.blocks)
  {
  }

  lemma Level19BlocksFit()
    ensures BlocksFit(Level19)
  {
  }

  /** Level 19 is well formed; its parts are proved separately to keep each proof small. */
  lemma Level19WellFormed()
    ensures WellFormedLevel(Level19)
  {
    Level19BlocksFit();
    Level19IdsUnique();
  }

  lemma Level20BlocksFit()
    ensures BlocksFit(Level20)
  {
  }

  /** Level 20 is well formed; its parts are proved separately to keep each proof small. */
  lemma Level20WellFormed()
    ensures WellFormedLevel(Level20)
  {
    Level20BlocksFit();
    Level20IdsUnique();
  }

  /** The catalog has twenty levels, numbered 1 to 20 in play order, and every
      level is well formed. */
  lemma CatalogWellFormed()
    ensures |PuzzleLevels| == LevelCount
    ensures forall i :: 0 <= i < |PuzzleLevels| ==> PuzzleLevels[i].id == i + 1
    ensures forall i :: 0 <= i < |PuzzleLevels| ==> WellFormedLevel(PuzzleLevels[i])
  {
    Level1WellFormed();
    Level2WellFormed();
    Level3WellFormed();
    Level4WellFormed();
    Level5WellFormed();
    Level6WellFormed();
    Level7WellFormed();
    Level8WellFormed();
    Level9WellFormed();
    Level10WellFormed();
    Level11WellFormed();
    Level12WellFormed();
    Level13WellFormed();
    Level14WellFormed();
    Level15WellFormed();
    Level16WellFormed();
    Level17WellFormed();
    Level18WellFormed();
    Level19WellFormed();
    Level20WellFormed();
  }

  /** Blocks in the authored data overlap: in level 1 the blue block and the
      first gray block both cover (1,1); in level 13 the purple block and the
      second gray block both cover (5,5). */
  lemma AuthoredBlocksOverlap()
    ensures !PairwiseDisjoint(Level1.blocks)
    ensures !PairwiseDisjoint(Level13.blocks)
  {
    assert InFootprint(Level1.blocks[1], Cell(1, 1)) && InFootprint(Level1.blocks[4], Cell(1, 1));
    assert InFootprint(Level13.blocks[3], Cell(5, 5)) && InFootprint(Level13.blocks[7], Cell(5, 5));
  }

  /** The end cell is covered in levels 16, 19 and 20, and the start cell in
      level 20. */
  lemma AuthoredEndpointsCovered()
    ensures Covered(Level16.blocks, Level16.ballEnd)
    ensures Covered(Level19.blocks, Level19.ballEnd)
    ensures Covered(Level20.blocks, Level20.ballEnd)
    ensures Covered(Level20.blocks, Level20.ballStart)
  {
    assert InFootprint(Level16.blocks[6], Level16.ballEnd);
    assert InFootprint(Level19.blocks[6], Level19.ballEnd);
    assert InFootprint(Level20.blocks[6], Level20.ballEnd);
    assert InFootprint(Level20.blocks[7], Level20.ballStart);
  }
}
