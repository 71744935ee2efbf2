/** Constants.BOARD_WEIGHTS: the positional weight of every cell. */
module Constants {
  const BoardWeights: seq<seq<int>> :=
    [[200, -70, 30, 25, 25, 30, -70, 200],
     [-70, -100, -10, -10, -10, -10, -100, -70],
     [30, -10, 2, 2, 2, 2, -10, 30],
     [25, -10, 2, 2, 2, 2, -10, 25],
     [25, -10, 2, 2, 2, 2, -10, 25],
     [30, -10, 2, 2, 2, 2, -10, 30],
     [-70, -100, -10, -10, -10, -10, -100, -70],
     [200, -70, 30, 25, 25, 30, -70, 200]]

  /** The weight of cell (i, j). */
  function Weight(i: int, j: int): int
    requires 0 <= i < 8 && 0 <= j < 8
  {
    BoardWeights[i][j]
  }

  /** The table is 8 by 8. */
  lemma WeightsShape()
    ensures |BoardWeights| == 8
    ensures forall i | 0 <= i < 8 :: |BoardWeights[i]| == 8
  {
  }

  /** The table is symmetric under transposition. */
  lemma WeightsTranspose(i: int, j: int)
    requires 0 <= i < 8 && 0 <= j < 8
    ensures Weight(i, j) == Weight(j, i)
  {
  }

  /** The table is symmetric under reflection in either middle line. */
  lemma WeightsMirror(i: int, j: int)
    requires 0 <= i < 8 && 0 <= j < 8
    ensures Weight(i, j) == Weight(7 - i, j) == Weight(i, 7 - j)
  {
  }

  /** Corners weigh 200 and their diagonal neighbours -100. */
  lemma CornerWeights()
    ensures Weight(0, 0) == Weight(0, 7) == Weight(7, 0) == Weight(7, 7) == 200
    ensures Weight(1, 1) == Weight(1, 6) == Weight(6, 1) == Weight(6, 6) == -100
  {
  }
}
