/**
 * WeightedEvaluator.evaluate: the weights of the player's cells minus the weights of the
 * opponent's cells.  The Java accumulator is a double, but every partial sum is a small
 * integer, so the model sums in `int` without loss.
 */
module Evaluator {
  import opened Board
  import opened Constants
  import opened Game

  /** What cell (i, j) adds: its weight if it is the player's, minus it if the opponent's. */
  function CellScore(b: Grid, i: int, j: int, player: SpaceType, opponent: SpaceType): int
    requires InBounds(i, j)
  {
    if Cell(b, i, j) == player then Weight(i, j)
    else if Cell(b, i, j) == opponent then -Weight(i, j)
    else 0
  }

  /** The score of the first n cells of row i. */
  function RowScore(b: Grid, i: int, n: nat, player: SpaceType, opponent: SpaceType): int
    requires 0 <= i < 8 && n <= 8
  {
    if n == 0 then 0 else RowScore(b, i, n - 1, player, opponent) + CellScore(b, i, n - 1, player, opponent)
  }

  /** The score of the first n rows. */
  function BoardScore(b: Grid, n: nat, player: SpaceType, opponent: SpaceType): int
    requires n <= 8
  {
    if n == 0 then 0 else BoardScore(b, n - 1, player, opponent) + RowScore(b, n - 1, 8, player, opponent)
  }

  /** The total weight of the first n cells of row i that have colour c. */
  function RowWeight(b: Grid, i: int, n: nat, c: SpaceType): int
    requires 0 <= i < 8 && n <= 8
  {
    if n == 0 then 0
    else RowWeight(b, i, n - 1, c) + (if Cell(b, i, n - 1) == c then Weight(i, n - 1) else 0)
  }

  /** The total weight of the cells of colour c in the first n rows. */
  function ColourWeight(b: Grid, n: nat, c: SpaceType): int
    requires n <= 8
  {
    if n == 0 then 0 else ColourWeight(b, n - 1, c) + RowWeight(b, n - 1, 8, c)
  }

  /** The total absolute weight of the first n cells of row i. */
  function RowAbsWeight(i: int, n: nat): int
    requires 0 <= i < 8 && n <= 8
  {
    if n == 0 then 0 else RowAbsWeight(i, n - 1) + Abs(Weight(i, n - 1))
  }

  /** The total absolute weight of the first n rows. */
  function AbsWeight(n: nat): int
    requires n <= 8
  {
    if n == 0 then 0 else AbsWeight(n - 1) + RowAbsWeight(n - 1, 8)
  }

  /** WeightedEvaluator.evaluate: the nested loops over rows and columns. */
  method Evaluate(b: Grid, player: SpaceType, opponent: SpaceType) returns (score: int)
    ensures score == BoardScore(b, 8, player, opponent)
    ensures player != opponent ==> score == ColourWeight(b, 8, player) - ColourWeight(b, 8, opponent)
    ensures -2392 <= score <= 2392
  {
    score := 0;
    var i := 0;
    while i < 8
      invariant 0 <= i <= 8
      invariant score == BoardScore(b, i, player, opponent)
    {
      var j := 0;
      while j < 8
        invariant 0 <= j <= 8
        invariant score == BoardScore(b, i, player, opponent) + RowScore(b, i, j, player, opponent)
      {
        if Cell(b, i, j) == player {
          score := score + Weight(i, j);
        } else if Cell(b, i, j) == opponent {
          score := score - Weight(i, j);
        }
        j := j + 1;
      }
      i := i + 1;
    }
    if player != opponent {
      ScoreIsDifference(b, 8, player, opponent);
    }
    FullScoreBounded(b, player, opponent);
  }

  /** The score is bounded by the total absolute weight of the table. */
  lemma FullScoreBounded(b: Grid, player: SpaceType, opponent: SpaceType)
    ensures -2392 <= BoardScore(b, 8, player, opponent) <= 2392
  {
    TotalAbsWeight();
    ScoreBounded(b, 8, player, opponent);
    assert -AbsWeight(8) <= BoardScore(b, 8, player, opponent) <= AbsWeight(8);
  }

  lemma {:induction false} RowScoreIsDifference(b: Grid, i: int, n: nat, player: SpaceType, opponent: SpaceType)
    requires 0 <= i < 8 && n <= 8 && player != opponent
    ensures RowScore(b, i, n, player, opponent) == RowWeight(b, i, n, player) - RowWeight(b, i, n, opponent)
  {
    if n > 0 {
      RowScoreIsDifference(b, i, n - 1, player, opponent);
    }
  }

  /** For distinct colours the score is the player's weight minus the opponent's. */
  lemma {:induction false} ScoreIsDifference(b: Grid, n: nat, player: SpaceType, opponent: SpaceType)
    requires n <= 8 && player != opponent
    ensures BoardScore(b, n, player, opponent) == ColourWeight(b, n, player) - ColourWeight(b, n, opponent)
  {
    if n > 0 {
      ScoreIsDifference(b, n - 1, player, opponent);
      RowScoreIsDifference(b, n - 1, 8, player, opponent);
    }
  }

  /** Exchanging distinct player and opponent colours negates the score. */
  lemma ScoreAntisymmetric(b: Grid, player: SpaceType, opponent: SpaceType)
    requires player != opponent
    ensures BoardScore(b, 8, player, opponent) == -BoardScore(b, 8, opponent, player)
  {
    ScoreIsDifference(b, 8, player, opponent);
    ScoreIsDifference(b, 8, opponent, player);
  }

  lemma {:induction false} RowScoreBounded(b: Grid, i: int, n: nat, player: SpaceType, opponent: SpaceType)
    requires 0 <= i < 8 && n <= 8
    ensures -RowAbsWeight(i, n) <= RowScore(b, i, n, player, opponent) <= RowAbsWeight(i, n)
  {
    if n > 0 {
      RowScoreBounded(b, i, n - 1, player, opponent);
    }
  }

  /** The score never exceeds the total absolute weight of the rows seen. */
  lemma {:induction false} ScoreBounded(b: Grid, n: nat, player: SpaceType, opponent: SpaceType)
    requires n <= 8
    ensures -AbsWeight(n) <= BoardScore(b, n, player, opponent) <= AbsWeight(n)
  {
    if n > 0 {
      ScoreBounded(b, n - 1, player, opponent);
      RowScoreBounded(b, n - 1, 8, player, opponent);
    }
  }

  /** The absolute weights add up to 2392. */
  lemma TotalAbsWeight()
    ensures AbsWeight(8) == 2392
  {
    assert RowAbsWeight(0, 8) == RowAbsWeight(7, 8) == 650;
    assert RowAbsWeight(1, 8) == RowAbsWeight(6, 8) == 380;
    assert RowAbsWeight(2, 8) == RowAbsWeight(5, 8) == 88;
    assert RowAbsWeight(3, 8) == RowAbsWeight(4, 8) == 78;
  }

  /** Cells m .. n-1 of row i without colour c add nothing to its weight. */
  lemma {:induction false} RowWeightSkip(g: Grid, i: int, m: nat, n: nat, c: SpaceType)
    requires 0 <= i < 8 && m <= n <= 8
    requires forall j | m <= j < n :: Cell(g, i, j) != c
    ensures RowWeight(g, i, n, c) == RowWeight(g, i, m, c)
  {
    if n > m {
      RowWeightSkip(g, i, m, n - 1, c);
    }
  }

  /** In the opening grid each colour holds two centre cells of weight 2. */
  lemma OpeningColourWeights(g: Grid, c: SpaceType)
    requires forall i, j :: InBounds(i, j) ==> Cell(g, i, j) == OpeningColour(i, j)
    requires IsDisc(c)
    ensures ColourWeight(g, 8, c) == 4
  {
    forall i | 0 <= i < 8 && i != 3 && i != 4
      ensures RowWeight(g, i, 8, c) == 0
    {
      RowWeightSkip(g, i, 0, 8, c);
    }
    RowWeightSkip(g, 3, 0, 3, c);
    RowWeightSkip(g, 3, 5, 8, c);
    RowWeightSkip(g, 4, 0, 3, c);
    RowWeightSkip(g, 4, 5, 8, c);
    assert RowWeight(g, 3, 8, c) == RowWeight(g, 4, 8, c) == 2;
    assert ColourWeight(g, 1, c) == 0;
    assert ColourWeight(g, 2, c) == 0;
    assert ColourWeight(g, 3, c) == 0;
    assert ColourWeight(g, 5, c) == 4;
    assert ColourWeight(g, 6, c) == 4;
    assert ColourWeight(g, 7, c) == 4;
  }

  /** The opening position scores 0 for either player. */
  lemma OpeningScoresZero(player: SpaceType, opponent: SpaceType)
    requires IsDisc(player) && IsDisc(opponent) && player != opponent
    ensures BoardScore(InitialGrid(), 8, player, opponent) == 0
  {
    InitialCells();
    ScoreIsDifference(InitialGrid(), 8, player, opponent);
    OpeningColourWeights(InitialGrid(), player);
    OpeningColourWeights(InitialGrid(), opponent);
  }
}
