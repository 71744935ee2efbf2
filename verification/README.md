# Othello engine and game-tree search, modelled in Dafny

This project models the rules engine and the search core of an Othello player written in Java.
It also models the Python preprocessor that re-implements the same rules on a flat board.

**The rules engine** (`board.dfy`, `moves.dfy`, `game.dfy`, `game_state.dfy`, `opening.dfy`):
- An 8×8 grid of `EMPTY` / `BLACK` / `WHITE` cells. Cells are identified by their coordinates alone.
- Legal-move generation (`Player.getAvailableMoves`). It casts a ray in each of the eight directions of the direction table. A destination is mapped to the own discs that close a run of opponent discs.
- Move application (`OthelloGame.takeSpace` / `takeSpaces`). It walks from the destination toward each origin and claims every cell on the way. Each player's owned-cell list is kept in step with the board.
- `GameState`: an immutable snapshot with `swapPlayers`, the stub `applyMove` and `isGameOver`.

**Evaluation** (`constants.dfy`, `evaluator.dfy`): the fixed weight table. The weighted score is the sum of the player's cell weights minus the opponent's.

**Search over a generic tree** (`gametree.dfy`, `minimax.dfy`, `expectimax.dfy`, `mcts.dfy`):
- `GameTreeNode` with its bookkeeping.
- Depth-limited minimax with fail-soft alpha-beta cutoffs.
- Expectimax, with max nodes and uniform chance nodes.
- Monte Carlo tree search: selection, one-node expansion and backpropagation with alternating perspective.

**Strategy glue** (`strategies.dfy`, `minimax_strategy.dfy`, `mcts_strategy.dfy`, `input_mapper.dfy`, `factory.dfy`):
- The one-child-per-move root.
- The "first strictly best child" loops.
- The piece-count game result and the bounded random playout.
- The 192-entry one-hot board encoder and the move read back from a network output.
- The name → strategy factory.

**Graph utilities** (`graph.dfy`, `traversal.dfy`): the adjacency-list digraph, pre-order depth-first traversal and leaf collection.

**The Python preprocessor** (`preprocess.dfy`):
- Algebraic square names.
- `get_legal_moves` and `take_spaces` on a 64-entry vector.
- The starting vector.
- Proofs that on an encoded board `get_legal_moves` lists the same destinations and origins as the Java move generator.

Design choices:
- **Values, not objects.** Every Java object is a value: the board is `seq<seq<SpaceType>>`, players are a colour with a list of owned coordinates, and a search tree is a `Node<T>` that owns its children. A method that mutates its receiver becomes a function that returns the new value.
- **Map keys are coordinates.** `BoardSpace.equals`/`hashCode` look only at coordinates, so a `HashMap<BoardSpace, _>` behaves as a map keyed by `Coord`.
- **Parent pointers become paths.** The parent pointer of a tree node is replaced by the path of child indices from the root.
- **Scores are `real`.** Java `double` scores are modelled as `real`, with `Bound = NegInf | Fin(v) | PosInf` where the code uses the infinities.
- **Randomness and UCB1 are parameters.** MCTS selection draws an index `picks(i)`. The playout draws `draws(i, m)`. The UCB1 exploration term is a function `explore(parentVisits, visits)`.
- **HashMap iteration order is a parameter.** The caller passes `keys`, the key set of the moves map enumerated once each (`Strategies.IsEnumeration`), and the model makes no claim about which order it is.
- **`GameState.applyMove` is modelled as written.** It checks that the move is legal and returns the role-swapped state with the board unchanged; no disc is placed or flipped. Two consequences are proved:
  - every child of a strategy's root has the same board;
  - `MinimaxStrategy` therefore always answers the first key of the enumeration (`MinimaxStrategy.PicksFirstKey`).
- **Children of a minimax root are scored from the opponent's side.** The minimax root's children are leaves scored with `isMax = false`, i.e. by `evaluate(board, opponent, currentPlayer)`. `getBestChildMove` takes the largest of those scores. This is modelled as written (`MinimaxStrategy.ChildScores`).
- **Ties go to the non-BLACK side.** `getGameResult` counts a tie as a loss for BLACK and a win for the other side, as the code does.

## Model

| member | source | states |
|---|---|---|
| Board.SpaceEqualsIsCoordEquality | cit-5940-final-project-group-10/src/main/java/othello/gamelogic/BoardSpace.java:31-36 | two board spaces are equal exactly when their x and y agree; the type is ignored |
| Board.HashConsistentWithEquals | cit-5940-final-project-group-10/src/main/java/othello/gamelogic/BoardSpace.java:38-41 | equal spaces have equal hash codes (Objects.hash(x, y) with 32-bit wrap-around) |
| Board.HashOnBoard | cit-5940-final-project-group-10/src/main/java/othello/gamelogic/BoardSpace.java:38-41 | on board coordinates Objects.hash(x, y) is 961 + 31x + y and never wraps |
| Board.Wrap32 | cit-5940-final-project-group-10/src/main/java/othello/gamelogic/BoardSpace.java:38-41 | Java int arithmetic: the result is in the 32-bit range and congruent to the exact value modulo 2^32 |
| Board.SetType | cit-5940-final-project-group-10/src/main/java/othello/gamelogic/BoardSpace.java:68-70 | setType changes the type only; the space stays equal to the old one |
| Board.SetCell | cit-5940-final-project-group-10/src/main/java/othello/gamelogic/OthelloGame.java:97 | recolouring a cell sets that cell and leaves every other cell as it was |
| Board.Opponent | cit-5940-final-project-group-10/src/main/java/othello/gamelogic/Player.java:37-39 | the opponent colour differs from the player's and is never EMPTY |
| Board.DirectionsNonZero | cit-5940-final-project-group-10/src/main/java/othello/gamelogic/Player.java:43-44 | every entry of the direction table is a non-zero king step |
| Moves.RunEnd | cit-5940-final-project-group-10/src/main/java/othello/gamelogic/Player.java:60-65 | the inner while loop stops at the first step that is off the board or not an opponent disc, and every earlier step is an opponent disc |
| Moves.OriginsFrom | cit-5940-final-project-group-10/src/main/java/othello/gamelogic/Player.java:53-73 | the direction loop adds at most one origin per direction |
| Moves.MovesUpTo | cit-5940-final-project-group-10/src/main/java/othello/gamelogic/Player.java:46-80 | after the nested loops have visited n cells, the map holds exactly the destinations among them, each with its origins |
| Moves.CellAt | cit-5940-final-project-group-10/src/main/java/othello/gamelogic/Player.java:46-47 | step n of the nested row/column loops visits board cell (n / 8, n % 8) |
| Moves.DirOriginSound | cit-5940-final-project-group-10/src/main/java/othello/gamelogic/Player.java:56-72 | an origin found along a direction is an own disc after a non-empty run of opponent discs |
| Moves.DirOriginComplete | cit-5940-final-project-group-10/src/main/java/othello/gamelogic/Player.java:56-72 | a direction in which an own disc closes a run of opponent discs yields exactly that disc as origin |
| Moves.OriginsFromSound | cit-5940-final-project-group-10/src/main/java/othello/gamelogic/Player.java:55-73 | every listed origin closes a run along one of the remaining directions |
| Moves.OriginsFromComplete | cit-5940-final-project-group-10/src/main/java/othello/gamelogic/Player.java:55-73 | every flanking direction contributes its origin to the list |
| Moves.KeyIffFlanked | cit-5940-final-project-group-10/src/main/java/othello/gamelogic/Player.java:49-78 | a cell is a key exactly when it is empty and some direction has a run of ≥ 1 opponent discs closed by an in-bounds own disc |
| Moves.OriginsAreFlankingCells | cit-5940-final-project-group-10/src/main/java/othello/gamelogic/Player.java:53-78 | each origin lies on a ray from the destination with only opponent discs between; lists hold 1 to 8 origins |
| Moves.KeysAreEmptyCells | cit-5940-final-project-group-10/src/main/java/othello/gamelogic/Player.java:49-51 | occupied cells are never destinations |
| Moves.FullBoardHasNoMoves | cit-5940-final-project-group-10/src/main/java/othello/gamelogic/Player.java:46-51 | a board without an empty cell offers no move |
| Game.NewGame | cit-5940-final-project-group-10/src/main/java/othello/gamelogic/OthelloGame.java:47-65 | initBoard: all cells empty except (3,4),(4,3) BLACK and (3,3),(4,4) WHITE, each appended to its owner's list |
| Game.InitialCells | cit-5940-final-project-group-10/src/main/java/othello/gamelogic/OthelloGame.java:47-65 | the starting grid agrees cell by cell with the opening colouring |
| Game.RemoveFirst | cit-5940-final-project-group-10/src/main/java/othello/gamelogic/OthelloGame.java:91 | List.remove drops one occurrence of the cell if present and otherwise changes nothing |
| Game.TakeSpace | cit-5940-final-project-group-10/src/main/java/othello/gamelogic/OthelloGame.java:86-98 | no change when the acting player already owns the cell; otherwise the cell takes the acting colour, the cell is appended to the acting player's list and one occurrence is removed from the opponent's list; no other cell changes and the acting player owns the cell afterwards |
| Game.TakeSpaceIdempotent | cit-5940-final-project-group-10/src/main/java/othello/gamelogic/OthelloGame.java:86-88 | taking a space twice is taking it once |
| Game.RemoveFirstCutsFirst | cit-5940-final-project-group-10/src/main/java/othello/gamelogic/OthelloGame.java:91 | the entry removed is the first one equal to the cell; the entries before and after it stay, in order |
| Game.RemoveFirstNoDup | cit-5940-final-project-group-10/src/main/java/othello/gamelogic/OthelloGame.java:91 | removing from a repeat-free list removes exactly that cell |
| Game.AppendNoDup | cit-5940-final-project-group-10/src/main/java/othello/gamelogic/OthelloGame.java:93-95 | appending a cell not yet owned keeps the list repeat-free |
| Game.TakeSpaceKeepsConsistent | cit-5940-final-project-group-10/src/main/java/othello/gamelogic/OthelloGame.java:86-98 | takeSpace keeps "cell has colour C exactly when it is in C's list, once" and recolours only (x, y) |
| Game.Next | cit-5940-final-project-group-10/src/main/java/othello/gamelogic/OthelloGame.java:135-140 | a coordinate moves only while it differs from the origin's, and then strictly closer |
| Game.SegmentStep | cit-5940-final-project-group-10/src/main/java/othello/gamelogic/OthelloGame.java:131-141 | one step of the walk shortens the distance to the origin by one and peels the first cell off the segment |
| Game.PaintsSegmentStep | cit-5940-final-project-group-10/src/main/java/othello/gamelogic/OthelloGame.java:131-141 | claiming the first cell and painting the rest paints the whole segment |
| Game.ClaimKeepsConsistent | cit-5940-final-project-group-10/src/main/java/othello/gamelogic/OthelloGame.java:132-134 | the guarded takeSpace in the walk keeps the owned lists consistent and skips out-of-board cells |
| Game.WalkKeepsConsistent | cit-5940-final-project-group-10/src/main/java/othello/gamelogic/OthelloGame.java:127-141 | the fill walk terminates and keeps the owned lists consistent with the board |
| Game.WalkPaintsSegment | cit-5940-final-project-group-10/src/main/java/othello/gamelogic/OthelloGame.java:127-141 | the walk claims exactly the in-bounds cells from the destination (inclusive) toward the origin (exclusive) |
| Game.DirectionTableMatch | cit-5940-final-project-group-10/src/main/java/othello/gamelogic/OthelloGame.java:113-126 | exactly one table entry matches each non-zero sign pair and none matches (0, 0) |
| Game.ForDirectionsWalksOnce | cit-5940-final-project-group-10/src/main/java/othello/gamelogic/OthelloGame.java:124-143 | the direction loop walks once, along the origin's direction, and not at all when the origin is the destination |
| Game.ForOriginsPaintsSegments | cit-5940-final-project-group-10/src/main/java/othello/gamelogic/OthelloGame.java:119-144 | the origin loop paints every destination-to-origin segment and keeps the owned lists consistent |
| Game.TakeSpacesPaintsSegments | cit-5940-final-project-group-10/src/main/java/othello/gamelogic/OthelloGame.java:111-145 | takeSpaces recolours every cell from the destination toward each origin, changes nothing else and keeps the lists consistent; the destination must be a key |
| Game.RayPosStraight | cit-5940-final-project-group-10/src/main/java/othello/gamelogic/Player.java:56-64 | cells reached along a direction lie on a straight line from the start |
| Game.LegalOriginsStraight | cit-5940-final-project-group-10/src/main/java/othello/gamelogic/Player.java:56-72 | the origins of a legal move lie on rays from its destination |
| Game.RayOnSegment | cit-5940-final-project-group-10/src/main/java/othello/gamelogic/Player.java:56-72 | the cells between a destination and its origin form the segment the walk paints |
| Game.PaintedCell | cit-5940-final-project-group-10/src/main/java/othello/gamelogic/OthelloGame.java:111-145 | every in-bounds cell of a painted segment has the acting colour afterwards |
| Game.TakeLegalMove | cit-5940-final-project-group-10/src/main/java/othello/gamelogic/OthelloGame.java:111-145 | a legal move keeps the lists consistent, colours the destination, recolours exactly the segments and captures at least one opponent disc |
| Opening.OpeningCandidates | cit-5940-final-project-group-10/src/main/java/othello/gamelogic/Player.java:55-78 | in the opening, a BLACK destination must touch a WHITE disc |
| Opening.OpeningOrigins23 | cit-5940-final-project-group-10/src/main/java/othello/gamelogic/Player.java:53-73 | in the opening, BLACK's only origin for (2,3) is (4,3) |
| Opening.OpeningOrigins32 | cit-5940-final-project-group-10/src/main/java/othello/gamelogic/Player.java:53-73 | in the opening, BLACK's only origin for (3,2) is (3,4) |
| Opening.OpeningOrigins45 | cit-5940-final-project-group-10/src/main/java/othello/gamelogic/Player.java:53-73 | in the opening, BLACK's only origin for (4,5) is (4,3) |
| Opening.OpeningOrigins54 | cit-5940-final-project-group-10/src/main/java/othello/gamelogic/Player.java:53-73 | in the opening, BLACK's only origin for (5,4) is (3,4) |
| Opening.OpeningKeys | cit-5940-final-project-group-10/src/main/java/othello/gamelogic/Player.java:55-78 | in the opening BLACK's destinations are among (2,3), (3,2), (4,5), (5,4) |
| Opening.DestinationEntry | cit-5940-final-project-group-10/src/main/java/othello/gamelogic/Player.java:75-78 | an empty cell with a non-empty origin list is put in the map with that list |
| Opening.OpeningMovesForBlack | cit-5940-final-project-group-10/src/main/java/othello/gamelogic/OthelloGame.java:47-65 | from the starting board BLACK has exactly the moves (2,3),(3,2),(4,5),(5,4), each with one origin |
| Opening.WalkFromTwoThree | cit-5940-final-project-group-10/src/main/java/othello/gamelogic/OthelloGame.java:127-141 | the walk from (2,3) to (4,3) claims (2,3) and (3,3) |
| Opening.FirstMoveWalk | cit-5940-final-project-group-10/src/main/java/othello/gamelogic/OthelloGame.java:111-145 | takeSpaces of BLACK's (2,3) in the opening is that walk |
| Opening.FirstMove | cit-5940-final-project-group-10/src/main/java/othello/gamelogic/OthelloGame.java:111-145 | BLACK taking (2,3) recolours only (2,3) and (3,3); BLACK then owns 4 cells and WHITE 1 |
| GameStates.SwapPlayers | cit-5940-final-project-group-10/src/main/java/othello/gamelogic/GameState.java:61-63 | swapPlayers exchanges the roles over the same board |
| GameStates.SwapInvolution | cit-5940-final-project-group-10/src/main/java/othello/gamelogic/GameState.java:61-63 | swapping twice restores the state |
| GameStates.ApplyMove | cit-5940-final-project-group-10/src/main/java/othello/gamelogic/GameState.java:70-99 | an unknown move returns the state itself; a legal move swaps the roles; the board never changes |
| GameStates.ApplyMovesKeepBoard | cit-5940-final-project-group-10/src/main/java/othello/gamelogic/GameState.java:91-98 | any sequence of applied moves leaves the board as it was |
| GameStates.TwoLegalMovesRestore | cit-5940-final-project-group-10/src/main/java/othello/gamelogic/GameState.java:91-98 | two legal moves in a row give back the original state |
| GameStates.GameOverIffNoMoves | cit-5940-final-project-group-10/src/main/java/othello/gamelogic/GameState.java:105-117 | the game is over exactly when neither colour has a destination |
| GameStates.GameOverSwapInvariant | cit-5940-final-project-group-10/src/main/java/othello/gamelogic/GameState.java:105-117 | whether the game is over does not depend on whose turn it is |
| GameStates.FullBoardIsGameOver | cit-5940-final-project-group-10/src/main/java/othello/gamelogic/GameState.java:105-117 | a full board is game-over whoever is to move |
| Constants.WeightsShape | cit-5940-final-project-group-10/src/main/java/othello/Constants.java:4-12 | the weight table is 8 × 8 |
| Constants.WeightsTranspose | cit-5940-final-project-group-10/src/main/java/othello/Constants.java:4-12 | the table is symmetric under transposition |
| Constants.WeightsMirror | cit-5940-final-project-group-10/src/main/java/othello/Constants.java:4-12 | the table is symmetric under reflection in either middle line |
| Constants.CornerWeights | cit-5940-final-project-group-10/src/main/java/othello/Constants.java:5-12 | corners weigh 200 and their diagonal neighbours -100 |
| Evaluator.Evaluate | cit-5940-final-project-group-10/src/main/java/othello/gamelogic/strategies/WeightedEvaluator.java:13-28 | the loops compute the weights of the player's cells minus the opponent's, bounded by ±2392 |
| Evaluator.ScoreIsDifference | cit-5940-final-project-group-10/src/main/java/othello/gamelogic/strategies/WeightedEvaluator.java:17-25 | for distinct colours the score is the player's total weight minus the opponent's; empty cells add nothing |
| Evaluator.RowScoreIsDifference | cit-5940-final-project-group-10/src/main/java/othello/gamelogic/strategies/WeightedEvaluator.java:18-24 | the same, row by row |
| Evaluator.ScoreAntisymmetric | cit-5940-final-project-group-10/src/main/java/othello/gamelogic/strategies/WeightedEvaluator.java:19-23 | exchanging distinct player and opponent colours negates the score |
| Evaluator.ScoreBounded | cit-5940-final-project-group-10/src/main/java/othello/gamelogic/strategies/WeightedEvaluator.java:17-25 | the score never exceeds the absolute weight of the rows scanned |
| Evaluator.RowScoreBounded | cit-5940-final-project-group-10/src/main/java/othello/gamelogic/strategies/WeightedEvaluator.java:18-24 | the same, within one row |
| Evaluator.TotalAbsWeight | cit-5940-final-project-group-10/src/main/java/othello/Constants.java:4-12 | the absolute weights of the table add up to 2392 |
| Evaluator.FullScoreBounded | cit-5940-final-project-group-10/src/main/java/othello/gamelogic/strategies/WeightedEvaluator.java:17-25 | every board scores between -2392 and 2392 |
| Evaluator.RowWeightSkip | cit-5940-final-project-group-10/src/main/java/othello/gamelogic/strategies/WeightedEvaluator.java:19-23 | cells without the colour add nothing to its weight |
| Evaluator.OpeningColourWeights | cit-5940-final-project-group-10/src/main/java/othello/gamelogic/OthelloGame.java:54-64 | in the opening each colour holds two centre cells of weight 2 |
| Evaluator.OpeningScoresZero | cit-5940-final-project-group-10/src/main/java/othello/gamelogic/strategies/WeightedEvaluator.java:17-25 | the starting position scores 0 for either player |
| GameTree.NewNode | cit-5940-final-project-group-10/src/main/java/graph/search/GameTreeNode.java:18-32 | a new node has no children, score 0, window (-inf, +inf), no visits and total 0 |
| GameTree.AddChild | cit-5940-final-project-group-10/src/main/java/graph/search/GameTreeNode.java:57-64 | addChild appends the child at the end and changes nothing else |
| GameTree.IncrementVisits | cit-5940-final-project-group-10/src/main/java/graph/search/GameTreeNode.java:141-143 | one more visit and nothing else changes |
| GameTree.AddScore | cit-5940-final-project-group-10/src/main/java/graph/search/GameTreeNode.java:157-159 | the score is added to the total and nothing else changes |
| GameTree.BookkeepingCommutes | cit-5940-final-project-group-10/src/main/java/graph/search/GameTreeNode.java:141-159 | the two bookkeeping updates commute and never touch the children |
| GameTree.Ucb1 | cit-5940-final-project-group-10/src/main/java/graph/search/GameTreeNode.java:166-175 | UCB1 is +infinity exactly for an unvisited node |
| GameTree.BMax | cit-5940-final-project-group-10/src/main/java/graph/search/MiniMax.java:41-42 | Math.max on extended reals: an upper bound of both arguments and one of them |
| GameTree.BMin | cit-5940-final-project-group-10/src/main/java/graph/search/MiniMax.java:56-57 | Math.min on extended reals: a lower bound of both arguments and one of them |
| GameTree.FirstMax | cit-5940-final-project-group-10/src/main/java/othello/gamelogic/strategies/MinimaxStrategy.java:100-108 | the "take it when strictly greater" loop returns the first position of a maximum when that maximum beats the starting value, and nothing otherwise |
| GameTree.AddChildSize | cit-5940-final-project-group-10/src/main/java/graph/search/GameTreeNode.java:71-75 | adding a new child adds exactly one node to the tree |
| GameTree.SizeOfUpdate | cit-5940-final-project-group-10/src/main/java/graph/search/GameTreeNode.java:57-64 | replacing one subtree changes the size by the difference of the two subtrees |
| MiniMax.Search | cit-5940-final-project-group-10/src/main/java/graph/search/MiniMax.java:21-66 | the value returned is the score recorded; only scores change; a leaf or depth 0 is evaluated |
| MiniMax.Loop | cit-5940-final-project-group-10/src/main/java/graph/search/MiniMax.java:36-66 | the child loop keeps the children's number, touches only scores and moves maxScore (minScore) only upward (downward) |
| MiniMax.SearchFailSoft | cit-5940-final-project-group-10/src/main/java/graph/search/MiniMax.java:21-66 | the value is fail-soft for the window: exact inside it, a bound on the correct side outside it |
| MiniMax.LoopFailSoft | cit-5940-final-project-group-10/src/main/java/graph/search/MiniMax.java:36-66 | the child loop's value is fail-soft with respect to the minimax value of its children |
| MiniMax.AlphaBetaIsMinimax | cit-5940-final-project-group-10/src/main/java/graph/search/MiniMax.java:21-66 | with the window (-inf, +inf) the search returns exactly the plain minimax value |
| MiniMax.LoopCutoff | cit-5940-final-project-group-10/src/main/java/graph/search/MiniMax.java:39-62 | children are searched in order up to and including the first one that makes beta <= alpha; later siblings keep their old score; the value is the max (min) over the searched children |
| MiniMax.StopsByStep | cit-5940-final-project-group-10/src/main/java/graph/search/MiniMax.java:44-46 | a child that does not cut passes the stopping point and the running max (min) on to the rest of the loop |
| MiniMax.FlatRootScores | cit-5940-final-project-group-10/src/main/java/graph/search/MiniMax.java:36-50 | a maximizing root over leaves with the full window cuts nothing, and every child is scored by the evaluator as a minimizing node |
| Expectimax.Search | cit-5940-final-project-group-10/src/main/java/graph/search/Expectimax.java:19-61 | the value returned is the score recorded; a leaf or depth 0 is evaluated |
| Expectimax.MaxLoop | cit-5940-final-project-group-10/src/main/java/graph/search/Expectimax.java:32-41 | the max loop visits every child and gives a finite value when there is a child |
| Expectimax.MaxLoopIsMax | cit-5940-final-project-group-10/src/main/java/graph/search/Expectimax.java:32-41 | the max loop's value is the largest recorded child score and is attained |
| Expectimax.ChanceLoop | cit-5940-final-project-group-10/src/main/java/graph/search/Expectimax.java:51-57 | the chance loop adds the probability times each child's score |
| Expectimax.WeightedIsScaled | cit-5940-final-project-group-10/src/main/java/graph/search/Expectimax.java:51-57 | the sum of probability × score is probability × the sum of scores |
| Expectimax.InnerValue | cit-5940-final-project-group-10/src/main/java/graph/search/Expectimax.java:32-58 | a max node's value is the maximum of its children's scores; a chance node's is their arithmetic mean and lies between their min and max |
| Expectimax.SearchesEveryChild | cit-5940-final-project-group-10/src/main/java/graph/search/Expectimax.java:35-56 | there is no pruning: every child is searched at depth - 1 with the other kind of node |
| Expectimax.MaxLoopSearchesAll | cit-5940-final-project-group-10/src/main/java/graph/search/Expectimax.java:35-38 | the max loop searches each remaining child as a chance node |
| Expectimax.ChanceLoopSearchesAll | cit-5940-final-project-group-10/src/main/java/graph/search/Expectimax.java:53-56 | the chance loop searches each remaining child as a max node |
| Expectimax.SearchEachIndex | cit-5940-final-project-group-10/src/main/java/graph/search/Expectimax.java:35-56 | child j of the result is the search of child j |
| Expectimax.SearchOnlyScores | cit-5940-final-project-group-10/src/main/java/graph/search/Expectimax.java:19-61 | the search changes only scores: data, window, visits, totals and shape are kept |
| Expectimax.MeanWithinRange | cit-5940-final-project-group-10/src/main/java/graph/search/Expectimax.java:51-58 | the sum of (1/n)·score is the mean and lies between the smallest and the largest score |
| Expectimax.SumBetween | cit-5940-final-project-group-10/src/main/java/graph/search/Expectimax.java:53-56 | n scores sum to between n·min and n·max |
| Mcts.Unvisited | cit-5940-final-project-group-10/src/main/java/graph/search/MonteCarloTreeSearch.java:58-63 | the list of unvisited children holds exactly the children with zero visits |
| Mcts.Select | cit-5940-final-project-group-10/src/main/java/graph/search/MonteCarloTreeSearch.java:54-87 | selection ends at a leaf or at an unvisited child; at the root: with unvisited children it stops at one of them, otherwise it descends to a child of greatest UCB1 |
| Mcts.SelectDescendsThroughVisited | cit-5940-final-project-group-10/src/main/java/graph/search/MonteCarloTreeSearch.java:54-87 | the same test is repeated at every node on the path: a node with unvisited children ends the path at one of them; otherwise the path goes to a child of greatest UCB1, so every node the path passes through has all its children visited |
| Mcts.UcbStepFindsChild | cit-5940-final-project-group-10/src/main/java/graph/search/MonteCarloTreeSearch.java:68-83 | when every child is visited the UCB1 loop finds a child, so the break branch is never taken |
| Mcts.Expand | cit-5940-final-project-group-10/src/main/java/graph/search/MonteCarloTreeSearch.java:95-101 | expansion adds exactly one child, carrying the selected node's data, to the selected node |
| Mcts.ExpandedPath | cit-5940-final-project-group-10/src/main/java/graph/search/MonteCarloTreeSearch.java:95-101 | the new child is reached by the selected path plus its index, and is a fresh node |
| Mcts.Backprop | cit-5940-final-project-group-10/src/main/java/graph/search/MonteCarloTreeSearch.java:110-126 | backpropagation adds one visit and the perspective's score to every node on the path and changes nothing off it |
| Mcts.BackpropAlongPath | cit-5940-final-project-group-10/src/main/java/graph/search/MonteCarloTreeSearch.java:115-125 | the node k steps below the root gains one visit and the result scored with perspective (depth of path - k) even, i.e. true at the expanded node and alternating upward |
| Mcts.Simulation | cit-5940-final-project-group-10/src/main/java/graph/search/MonteCarloTreeSearch.java:33-43 | one simulation adds one node and one root visit and keeps the root's data |
| Mcts.Search | cit-5940-final-project-group-10/src/main/java/graph/search/MonteCarloTreeSearch.java:25-45 | N simulations add exactly N nodes and N root visits |
| Mcts.IterateGrows | cit-5940-final-project-group-10/src/main/java/graph/search/MonteCarloTreeSearch.java:32-44 | the simulation loop grows the tree and the root's visits by one per round |
| Mcts.SimulationStep | cit-5940-final-project-group-10/src/main/java/graph/search/MonteCarloTreeSearch.java:33-43 | one simulation visits exactly one root child, the first step of the selected path |
| Mcts.SimulationRootChildren | cit-5940-final-project-group-10/src/main/java/graph/search/MonteCarloTreeSearch.java:56-65 | one simulation keeps the root's children and visits one more of the unvisited ones when any remain |
| Mcts.VisitOne | cit-5940-final-project-group-10/src/main/java/graph/search/MonteCarloTreeSearch.java:56-65 | visiting one unvisited child removes exactly one entry from the unvisited list |
| Mcts.SameVisits | cit-5940-final-project-group-10/src/main/java/graph/search/MonteCarloTreeSearch.java:56-65 | children with the same visit counts have the same unvisited list |
| Mcts.CountUnvisitedIsLength | cit-5940-final-project-group-10/src/main/java/graph/search/MonteCarloTreeSearch.java:58-63 | counting unvisited children agrees with the length of the unvisited list |
| Mcts.RoundAdvances | cit-5940-final-project-group-10/src/main/java/graph/search/MonteCarloTreeSearch.java:32-44 | every round on a root with children keeps them and shrinks the unvisited count while it is positive |
| Mcts.IterateKeepsChildren | cit-5940-final-project-group-10/src/main/java/graph/search/MonteCarloTreeSearch.java:32-44 | the loop keeps the root's children and their data |
| Mcts.IterateVisitsAll | cit-5940-final-project-group-10/src/main/java/graph/search/MonteCarloTreeSearch.java:32-44 | at least as many rounds as unvisited children leave none unvisited |
| Mcts.SearchKeepsRootChildren | cit-5940-final-project-group-10/src/main/java/graph/search/MonteCarloTreeSearch.java:25-45 | search keeps the root's children, in order, with their data |
| Mcts.SearchVisitsEveryRootChild | cit-5940-final-project-group-10/src/main/java/graph/search/MonteCarloTreeSearch.java:25-65 | with k root children and at least k simulations, every root child is visited at least once |
| Strategies.BuildRoot | cit-5940-final-project-group-10/src/main/java/othello/gamelogic/strategies/MinimaxStrategy.java:34-44 | the root holds the state and one fresh leaf per key, in key order, holding applyMove(key) tagged with the key |
| Strategies.BestChildMove | cit-5940-final-project-group-10/src/main/java/othello/gamelogic/strategies/MinimaxStrategy.java:95-120 | getBestChildMove: the move of the first child of greatest score, nothing without children |
| Strategies.MostVisitedChildMove | cit-5940-final-project-group-10/src/main/java/othello/gamelogic/strategies/MCTSStrategy.java:150-175 | getMostVisitedChildMove: the move of the first child of greatest visit count, nothing without children |
| Strategies.ChildLoopsPickAChild | cit-5940-final-project-group-10/src/main/java/othello/gamelogic/strategies/MCTSStrategy.java:155-167 | with children, neither loop ends without a best child |
| Strategies.ChosenMoveIsKey | cit-5940-final-project-group-10/src/main/java/othello/gamelogic/strategies/MinimaxStrategy.java:95-120 | both loops answer one of the keys, and answer one exactly when there is a key |
| Strategies.EqualScoresPickFirst | cit-5940-final-project-group-10/src/main/java/othello/gamelogic/strategies/MinimaxStrategy.java:103-108 | when all scores tie, the strict comparison keeps the first child |
| Strategies.EnumerationFitsBoard | cit-5940-final-project-group-10/src/main/java/othello/gamelogic/Player.java:46-80 | a moves map has at most 64 keys |
| MinimaxStrategy.GetBestMove | cit-5940-final-project-group-10/src/main/java/othello/gamelogic/strategies/MinimaxStrategy.java:22-74 | nothing exactly when there is no move; otherwise one of the available moves |
| MinimaxStrategy.ChildScores | cit-5940-final-project-group-10/src/main/java/othello/gamelogic/strategies/MinimaxStrategy.java:47-69 | each root child is scored once, by evaluate(board, opponent, currentPlayer), and keeps its data |
| MinimaxStrategy.PicksFirstKey | cit-5940-final-project-group-10/src/main/java/othello/gamelogic/strategies/MinimaxStrategy.java:37-73 | since applyMove keeps the board, all children tie and the first key is returned (so a single move is always returned) |
| MctsStrategy.CountPieces | cit-5940-final-project-group-10/src/main/java/othello/gamelogic/strategies/MCTSStrategy.java:115-127 | the counting loops count exactly the BLACK and the WHITE cells |
| MctsStrategy.CountsPartition | cit-5940-final-project-group-10/src/main/java/othello/gamelogic/strategies/MCTSStrategy.java:119-127 | BLACK, WHITE and EMPTY counts add up to the number of cells scanned |
| MctsStrategy.GameResult | cit-5940-final-project-group-10/src/main/java/othello/gamelogic/strategies/MCTSStrategy.java:113-145 | the result is 0 or 1; a BLACK maximizer wins on strictly more BLACK discs, any other maximizer whenever BLACK does not |
| MctsStrategy.MoreDiscsWins | cit-5940-final-project-group-10/src/main/java/othello/gamelogic/strategies/MCTSStrategy.java:129-144 | with one BLACK and one WHITE player, more discs is a win and fewer a loss for the maximizer |
| MctsStrategy.PerspectivesComplement | cit-5940-final-project-group-10/src/main/java/othello/gamelogic/strategies/MCTSStrategy.java:133-138 | the two perspectives' results add up to 1 |
| MctsStrategy.TieFavoursWhite | cit-5940-final-project-group-10/src/main/java/othello/gamelogic/strategies/MCTSStrategy.java:130-138 | on equal counts the maximizer wins exactly when it is not BLACK |
| MctsStrategy.MoveList | cit-5940-final-project-group-10/src/main/java/othello/gamelogic/strategies/MCTSStrategy.java:98 | the list a move is drawn from holds exactly the current player's destinations |
| MctsStrategy.Step | cit-5940-final-project-group-10/src/main/java/othello/gamelogic/strategies/MCTSStrategy.java:86-104 | one loop iteration exchanges the roles over the same board, and a pass is never followed by another pass |
| MctsStrategy.PlayoutKeepsBoard | cit-5940-final-project-group-10/src/main/java/othello/gamelogic/strategies/MCTSStrategy.java:82-108 | a playout keeps the board and game-over status and only exchanges the players |
| MctsStrategy.PlayoutLength | cit-5940-final-project-group-10/src/main/java/othello/gamelogic/strategies/MCTSStrategy.java:84-105 | the playout terminates; on a game not over it applies exactly moveLimit moves, and none on a finished game |
| MctsStrategy.SearchedChildren | cit-5940-final-project-group-10/src/main/java/othello/gamelogic/strategies/MCTSStrategy.java:41-57 | the search keeps one child per key with its move |
| MctsStrategy.GetBestMove | cit-5940-final-project-group-10/src/main/java/othello/gamelogic/strategies/MCTSStrategy.java:26-61 | nothing exactly when there is no move; otherwise one of the available moves |
| MctsStrategy.SingleMoveReturned | othello/gamelogic/strategies/MCTSStrategyTest.java:84-102 | with a single available move, that move is returned |
| MctsStrategy.EveryMoveExplored | cit-5940-final-project-group-10/src/main/java/othello/gamelogic/strategies/MCTSStrategy.java:22-57 | with at most 64 moves and 1000 simulations, every move's child is visited |
| InputMapper.Channel | cit-5940-final-project-group-10/src/main/java/othello/gamelogic/strategies/BoardToInputMapper.java:44-56 | every cell lights one of the three channels |
| InputMapper.Encoding | cit-5940-final-project-group-10/src/main/java/othello/gamelogic/strategies/BoardToInputMapper.java:26-27 | the encoding has 8·8·3 = 192 entries |
| InputMapper.MapToInput | cit-5940-final-project-group-10/src/main/java/othello/gamelogic/strategies/BoardToInputMapper.java:20-61 | the nested loops write exactly the encoding |
| InputMapper.WriteCell | cit-5940-final-project-group-10/src/main/java/othello/gamelogic/strategies/BoardToInputMapper.java:36-56 | one inner iteration writes the three entries of its cell and no other |
| InputMapper.SlotsMakeEncoding | cit-5940-final-project-group-10/src/main/java/othello/gamelogic/strategies/BoardToInputMapper.java:34-60 | once every slot is written the array is the encoding |
| InputMapper.EncodingLayout | cit-5940-final-project-group-10/src/main/java/othello/gamelogic/strategies/BoardToInputMapper.java:29-56 | cell (i,j) sits at i·8+j, 64+i·8+j, 128+i·8+j: own colour, opponent colour, anything else |
| InputMapper.OneHot | cit-5940-final-project-group-10/src/main/java/othello/gamelogic/strategies/BoardToInputMapper.java:44-56 | each cell has exactly one 1.0 among its three entries, the others 0.0 |
| InputMapper.ColourSwapsChannels | cit-5940-final-project-group-10/src/main/java/othello/gamelogic/strategies/BoardToInputMapper.java:29-56 | encoding for BLACK and for WHITE swaps channels 0 and 1 and keeps channel 2 |
| InputMapper.EncodingSum | cit-5940-final-project-group-10/src/main/java/othello/gamelogic/strategies/BoardToInputMapper.java:44-56 | the entries sum to 64 |
| InputMapper.MapToMove | cit-5940-final-project-group-10/src/main/java/othello/gamelogic/strategies/BoardToInputMapper.java:69-87 | a key whose index x·8+y is negative passes the `index < output.length` test and makes the array access throw; otherwise the answer is the first key with strictly the largest in-range output above -1, or nothing when no key qualifies |
| InputMapper.MoveIsAvailable | cit-5940-final-project-group-10/src/main/java/othello/gamelogic/strategies/BoardToInputMapper.java:74-86 | for a move map of board cells nothing throws, the answer is a key of the map, and it is nothing exactly when no key qualifies |
| Factory.CreateStrategy | cit-5940-final-project-group-10/src/main/java/othello/gamelogic/strategies/StrategyFactory.java:17-25 | the four names build a strategy, "custom" one without a network; any other name fails with "Unknown strategy: " + name |
| Factory.NamesRoundTrip | cit-5940-final-project-group-10/src/main/java/othello/gamelogic/strategies/StrategyFactory.java:17-25 | each strategy comes back from its own name and each built strategy carries the name asked for |
| Factory.NamesDistinguishStrategies | cit-5940-final-project-group-10/src/main/java/othello/gamelogic/strategies/StrategyFactory.java:18-22 | distinct names build distinct strategies |
| Digraph.EmptyGraph | cit-5940-final-project-group-10/src/main/java/graph/core/DirectedGraph.java:15-17 | a new graph has no nodes |
| Digraph.GetNeighbors | cit-5940-final-project-group-10/src/main/java/graph/core/DirectedGraph.java:54-56 | an unknown node has no neighbours |
| Digraph.AddNode | cit-5940-final-project-group-10/src/main/java/graph/core/DirectedGraph.java:23-25 | addNode adds the node; an existing node keeps its list |
| Digraph.AddNodeIdempotent | cit-5940-final-project-group-10/src/main/java/graph/core/DirectedGraph.java:23-25 | adding a node twice is adding it once |
| Digraph.AddEdge | cit-5940-final-project-group-10/src/main/java/graph/core/DirectedGraph.java:32-39 | both ends become nodes, the destination is appended to the source's list, other lists are unchanged |
| Digraph.BuiltGraph | cit-5940-final-project-group-10/src/main/java/graph/core/DirectedGraph.java:23-56 | from an empty graph the nodes are exactly those named by the calls and a node's neighbours are its edges' destinations in call order |
| Traversal.Traverse | cit-5940-final-project-group-10/src/main/java/graph/traversal/DepthFirst.java:18-26 | a null root visits nothing; otherwise the root comes first, with one entry per node of the tree |
| Traversal.Preorder | cit-5940-final-project-group-10/src/main/java/graph/traversal/DepthFirst.java:21-25 | the node itself comes first, followed by one entry for each node of its subtrees |
| Traversal.CollectNodes | cit-5940-final-project-group-10/src/main/java/graph/traversal/DepthFirst.java:34-38 | collectNodes has one entry per node of the tree |
| Traversal.PreorderNodes | cit-5940-final-project-group-10/src/main/java/graph/traversal/DepthFirst.java:18-26 | the traversal reaches exactly the nodes of the tree |
| Traversal.Leaves | cit-5940-final-project-group-10/src/main/java/graph/core/Tree.java:47-55 | at least one and at most as many leaves as nodes, all of them leaves |
| Traversal.GetLeaves | cit-5940-final-project-group-10/src/main/java/graph/core/Tree.java:17-55 | a null root (which the constructor accepts) makes collectLeaves throw; otherwise getLeaves lists the leaves of the depth-first order, in that order, and there is at least one |
| Traversal.LeavesInPreorder | cit-5940-final-project-group-10/src/main/java/graph/core/Tree.java:41-55 | getLeaves lists the leaves of the depth-first order, in that order |
| Traversal.LeafFilterAppend | cit-5940-final-project-group-10/src/main/java/graph/core/Tree.java:51-53 | collecting leaves over two lists is collecting over each |
| Traversal.LeafRoot | cit-5940-final-project-group-10/src/main/java/graph/core/Tree.java:48-49 | a root without children is its own only leaf |
| Preprocess.ChessTo1d | cit-5940-final-project-group-10/learning_data/preprocess_parallel.py:12-17 | a square name a1..h8 (either case) maps into [0, 64); the function fails exactly when Python raises |
| Preprocess.ChessTo2d | cit-5940-final-project-group-10/learning_data/preprocess_parallel.py:19-24 | fails exactly when chess_to_1d_index does |
| Preprocess.SquareNamesRoundTrip | cit-5940-final-project-group-10/learning_data/preprocess_parallel.py:12-24 | every index has a name mapping back to it, and a name maps to an index whose name is the lower-cased name |
| Preprocess.GetLegalMoves | cit-5940-final-project-group-10/learning_data/preprocess_parallel.py:35-72 | {} without opponent pieces; keys are empty indices, each with its 1 to 8 origins |
| Preprocess.RayOriginSound | cit-5940-final-project-group-10/learning_data/preprocess_parallel.py:56-70 | an origin is the first own piece after a run of opponent pieces |
| Preprocess.OriginsFromSound | cit-5940-final-project-group-10/learning_data/preprocess_parallel.py:55-70 | every origin closes a non-empty opponent run along one direction |
| Preprocess.LegalMovesSound | cit-5940-final-project-group-10/learning_data/preprocess_parallel.py:52-68 | every key is empty and every origin closes a non-empty opponent run along one of the eight directions |
| Preprocess.NoOpponentNoOrigins | cit-5940-final-project-group-10/learning_data/preprocess_parallel.py:47-49 | without opponent pieces no ray finds an origin, so the early return agrees with the scan |
| Preprocess.RayOriginAgrees | cit-5940-final-project-group-10/learning_data/preprocess_parallel.py:56-70 | on an encoded board the Python ray walk stops where the Java run ends and agrees on the origin |
| Preprocess.OriginsAgree | cit-5940-final-project-group-10/learning_data/preprocess_parallel.py:55-70 | the Python origin list is the Java origin list as flat indices, in the same direction order |
| Preprocess.GetLegalMovesAgrees | cit-5940-final-project-group-10/learning_data/preprocess_parallel.py:35-72 | on an encoded board get_legal_moves and getAvailableMoves have the same destinations and origins |
| Preprocess.Encode | cit-5940-final-project-group-10/learning_data/preprocess_parallel.py:103-107 | a grid written as a vector holds each cell's integer at row·8+col |
| Preprocess.CodeOfDiscs | cit-5940-final-project-group-10/learning_data/preprocess_parallel.py:42-46 | 1 / -1 / 0 identify the player's colour, the opponent's and empty |
| Preprocess.FillPaintsSegment | cit-5940-final-project-group-10/learning_data/preprocess_parallel.py:74-97 | take_spaces sets every cell from the move (inclusive) toward the origin (exclusive) to the player and changes no other cell; the walk terminates |
| Preprocess.InitialVecMatchesGrid | cit-5940-final-project-group-10/learning_data/preprocess_parallel.py:103-107 | the starting vector (27, 36 white; 28, 35 black) encodes the Java starting grid |

## Left out

- User interface and start-up (`GameController`, `GUISpace`, `App`): JavaFX event handling and rendering. The display-only copy of the flip walk and the turn-skipping driven by UI calls are not modelled.
- The neural network package (`deeplearningjava`), `NeuralStrategy` and `createDefaultNetwork`. These are floating-point numerics with random initialisation. The factory only records that the "custom" strategy gets no network, because `createDefaultNetwork` returns null.
- `ExpectimaxStrategy` is not part of this model: the factory names it, but its source is not available.
- Interfaces without logic (`Strategy`, `BoardEvaluator`, `TreeNode`, `HumanPlayer`, `ComputerPlayer`, `module-info`, `HelloWorld`). Evaluators, simulators and strategies are function parameters or the `Factory.Strategy` variant.
- The Python `MCTSNode`, `mcts_probabilities`, `game_to_samples` beyond its starting vector, and the `__main__` driver: numpy randomness, process pools and HDF5 output. The legality filter and `print_board` are left out too.
- `GameTree.Ucb1`: does not model `log`/`sqrt`. The exploration term is the caller's `explore` function; only the unvisited case (+infinity) is fixed.
- Random draws: `random.nextInt` becomes `picks`/`draws` index functions taken modulo the list size. No distribution is modelled.
- HashMap iteration order: not modelled. `keys` is any enumeration of the key set. The playout's move list is built in row-major order, which fixes one order where Java's depends on hashing.
- Java `double`: scores are exact reals. Rounding, NaN and the sign of zero are not modelled. In particular, `Expectimax.MeanWithinRange` and `Expectimax.InnerValue` hold for exact arithmetic; a floating-point mean can differ in the last bits.
- Minimax values are `real` with infinite sentinels, not integers: the evaluator it runs with returns integer-valued doubles, and `real` covers both.
- Mutation and aliasing:
  - The copy constructors of `BoardSpace` and `GameState` are identities under value semantics, so "later changes to the input board do not show in the copy" holds trivially.
  - `setData` on a child is folded into building the child with its final data.
  - The `parent` field is replaced by paths from the root.
- `MiniMax.Search`: the Java search stores scores into the live tree. The model returns the updated tree and states that only scores change (`GameTree.SameButScores`).
- `Preprocess.ChessTo1d`: `str.lower` and `int()` are modelled for ASCII only. `int()` on a non-digit, or an index past the end of the string, raises in Python; the model answers `None` instead.
- `Preprocess.GetLegalMoves`: numpy's `np.where` scans are replaced by a comprehension over the 64 indices. Python's `divmod` with divisor 8 agrees with Dafny's `/` and `%` on the non-negative indices used.
- InputMapper.MapToMove: the index x*8+y is exact. Java's `int` wrap-around is not modelled; it only matters for coordinates of magnitude around 2^28 or more, which no board cell has.
- `Preprocess.TakeSpaces`: the in-place numpy update is modelled as a returned vector.
- The test helper `TestUtils` is not modelled: it calls a `Player(color)` constructor and overrides a `getMove` method that the `Player` class does not have.
- `Opening.OpeningOrigins22`, `Opening.OpeningOrigins55` and the other empty-origin opening lemmas are checks of single cells that feed `Opening.OpeningKeys`. They carry no separate row.
