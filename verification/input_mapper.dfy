/**
 * BoardToInputMapper: the 192-entry one-hot encoding of a board for a neural network (own discs,
 * opponent discs, empty cells; 64 entries each), and the choice of a move from the network's
 * output.
 */
module InputMapper {
  import opened Wrappers
  import opened Board
  import opened Moves
  import GameTree
  import opened Strategies

  /** Entries per channel: GAME_BOARD_SIZE * GAME_BOARD_SIZE. */
  const Cells: int := Size * Size

  /**
   * The channel a cell of type `t` lights up: 0 for the current player's colour, 1 for the
   * opponent's colour (WHITE when the player is BLACK, BLACK otherwise), 2 for anything else.
   */
  function Channel(t: SpaceType, current: SpaceType): (ch: nat)
    ensures ch < 3
  {
    if t == current then 0 else if t == Opponent(current) then 1 else 2
  }

  /** The entry at `channel` of the cell at row-major position `cell`. */
  function Entry(b: Grid, current: SpaceType, channel: nat, cell: nat): real
    requires cell < Cells
  {
    var c := CellAt(cell);
    if Channel(Cell(b, c.x, c.y), current) == channel then 1.0 else 0.0
  }

  /** The 64 entries of one channel, in row-major cell order. */
  function ChannelEntries(b: Grid, current: SpaceType, channel: nat): (r: seq<real>)
    ensures |r| == Cells
    ensures forall k | 0 <= k < Cells :: r[k] == Entry(b, current, channel, k)
  {
    seq(Cells, k requires 0 <= k < Cells => Entry(b, current, channel, k))
  }

  /** The encoding as a whole: the own channel, then the opponent channel, then the empty channel. */
  function Encoding(b: Grid, current: SpaceType): (r: seq<real>)
    ensures |r| == 3 * Cells
  {
    ChannelEntries(b, current, 0) + ChannelEntries(b, current, 1) + ChannelEntries(b, current, 2)
  }

  /** The position of channel `channel` of the cell at row-major position `cell`. */
  function Slot(channel: nat, cell: nat): nat
  {
    channel * Cells + cell
  }

  lemma EncodingAt(b: Grid, current: SpaceType, channel: nat, cell: nat)
    requires channel < 3 && cell < Cells
    ensures Encoding(b, current)[Slot(channel, cell)] == Entry(b, current, channel, cell)
  {
  }

  /**
   * mapToInput: the nested loops over the board write, for cell (i, j), the entries i*8+j,
   * 64+i*8+j and 128+i*8+j: a 1.0 in the cell's channel and 0.0 in the other two.
   */
  method MapToInput(b: Grid, current: SpaceType) returns (input: seq<real>)
    ensures input == Encoding(b, current)
  {
    input := seq(3 * Cells, _ => 0.0);
    var i := 0;
    while i < Size
      invariant 0 <= i <= Size && |input| == 3 * Cells
      invariant forall ch, k | ch < 3 && 0 <= k < i * Size :: input[Slot(ch, k)] == Entry(b, current, ch, k)
    {
      var j := 0;
      while j < Size
        invariant 0 <= j <= Size && |input| == 3 * Cells
        invariant forall ch, k | ch < 3 && 0 <= k < i * Size + j :: input[Slot(ch, k)] == Entry(b, current, ch, k)
      {
        input := WriteCell(input, b, current, i, j);
        j := j + 1;
      }
      i := i + 1;
    }
    SlotsMakeEncoding(input, b, current);
  }

  /**
   * The body of the inner loop of mapToInput for cell (i, j): the cell's three entries get the
   * one-hot values of its channel, and every other cell's entries stay as they were.
   */
  method WriteCell(input: seq<real>, b: Grid, current: SpaceType, i: int, j: int) returns (r: seq<real>)
    requires |input| == 3 * Cells && InBounds(i, j)
    ensures |r| == 3 * Cells
    ensures forall ch, k | ch < 3 && 0 <= k < Cells ::
      r[Slot(ch, k)] == if k == i * Size + j then Entry(b, current, ch, k) else input[Slot(ch, k)]
  {
    var spaceType := b[i][j];
    var currentPlayerIndex := i * Size + j;
    var opponentIndex := Cells + i * Size + j;
    var emptyIndex := 2 * Cells + i * Size + j;
    assert CellAt(currentPlayerIndex) == Coord(i, j);
    if spaceType == current {
      r := input[currentPlayerIndex := 1.0][opponentIndex := 0.0][emptyIndex := 0.0];
    } else if spaceType == Opponent(current) {
      r := input[currentPlayerIndex := 0.0][opponentIndex := 1.0][emptyIndex := 0.0];
    } else {
      r := input[currentPlayerIndex := 0.0][opponentIndex := 0.0][emptyIndex := 1.0];
    }
  }

  /** A vector holding every cell's entry in every channel's slot is the encoding. */
  lemma SlotsMakeEncoding(input: seq<real>, b: Grid, current: SpaceType)
    requires |input| == 3 * Cells
    requires forall ch, k | ch < 3 && 0 <= k < Cells :: input[Slot(ch, k)] == Entry(b, current, ch, k)
    ensures input == Encoding(b, current)
  {
  }

  /**
   * The layout of the encoding: for cell (i, j) the entries i*8+j, 64+i*8+j and 128+i*8+j hold
   * a 1.0 for the current player's colour, the opponent's colour and anything else, in that order.
   */
  lemma EncodingLayout(b: Grid, current: SpaceType, i: int, j: int)
    requires InBounds(i, j)
    ensures var e := Encoding(b, current);
      e[i * Size + j] == (if Cell(b, i, j) == current then 1.0 else 0.0) &&
      e[Cells + i * Size + j] == (if Cell(b, i, j) != current && Cell(b, i, j) == Opponent(current) then 1.0 else 0.0) &&
      e[2 * Cells + i * Size + j] == (if Cell(b, i, j) != current && Cell(b, i, j) != Opponent(current) then 1.0 else 0.0)
  {
  }

  /** For every cell, exactly one of its three entries is 1.0 and the other two are 0.0. */
  lemma OneHot(b: Grid, current: SpaceType, cell: nat)
    requires cell < Cells
    ensures var e := Encoding(b, current);
      e[Slot(0, cell)] + e[Slot(1, cell)] + e[Slot(2, cell)] == 1.0 &&
      forall ch | ch < 3 :: e[Slot(ch, cell)] == 0.0 || e[Slot(ch, cell)] == 1.0
  {
  }

  /**
   * Encoding a board for BLACK and for WHITE gives the same empty channel and swaps the own
   * and opponent channels.
   */
  lemma ColourSwapsChannels(b: Grid, cell: nat)
    requires cell < Cells
    ensures var black := Encoding(b, Black); var white := Encoding(b, White);
      black[Slot(0, cell)] == white[Slot(1, cell)] &&
      black[Slot(1, cell)] == white[Slot(0, cell)] &&
      black[Slot(2, cell)] == white[Slot(2, cell)]
  {
  }

  // ----- The entries add up to one per cell -----

  function Sum(xs: seq<real>): real
  {
    if xs == [] then 0.0 else Sum(xs[..|xs| - 1]) + xs[|xs| - 1]
  }

  lemma {:induction false} SumAppend(xs: seq<real>, ys: seq<real>)
    ensures Sum(xs + ys) == Sum(xs) + Sum(ys)
    decreases |ys|
  {
    if ys == [] {
      assert xs + ys == xs;
    } else {
      assert (xs + ys)[..|xs + ys| - 1] == xs + ys[..|ys| - 1];
      SumAppend(xs, ys[..|ys| - 1]);
    }
  }

  /** The entries of channel `channel` over the first `n` cells. */
  function ChannelSum(b: Grid, current: SpaceType, channel: nat, n: nat): real
    requires n <= Cells
  {
    if n == 0 then 0.0 else ChannelSum(b, current, channel, n - 1) + Entry(b, current, channel, n - 1)
  }

  lemma {:induction false} ChannelsCover(b: Grid, current: SpaceType, n: nat)
    requires n <= Cells
    ensures ChannelSum(b, current, 0, n) + ChannelSum(b, current, 1, n) + ChannelSum(b, current, 2, n) == n as real
  {
    if n > 0 {
      ChannelsCover(b, current, n - 1);
    }
  }

  lemma {:induction false} ChannelPrefix(b: Grid, current: SpaceType, channel: nat, n: nat)
    requires n <= Cells
    ensures Sum(ChannelEntries(b, current, channel)[..n]) == ChannelSum(b, current, channel, n)
  {
    if n > 0 {
      var e := ChannelEntries(b, current, channel);
      ChannelPrefix(b, current, channel, n - 1);
      assert e[..n][..n - 1] == e[..n - 1];
    }
  }

  /** The 192 entries sum to 64: one per cell. */
  lemma EncodingSum(b: Grid, current: SpaceType)
    ensures Sum(Encoding(b, current)) == Cells as real
  {
    var c0, c1, c2 := ChannelEntries(b, current, 0), ChannelEntries(b, current, 1), ChannelEntries(b, current, 2);
    ChannelPrefix(b, current, 0, Cells);
    ChannelPrefix(b, current, 1, Cells);
    ChannelPrefix(b, current, 2, Cells);
    assert c0[..Cells] == c0 && c1[..Cells] == c1 && c2[..Cells] == c2;
    ChannelsCover(b, current, Cells);
    SumAppend(c0, c1);
    SumAppend(c0 + c1, c2);
  }

  // ----- Reading a move back -----

  /** The output entry a key is judged by, or -infinity when its index x*8+y is past the end. */
  function KeyProbability(output: seq<real>, key: Coord): GameTree.Bound
    requires RowMajor(key) >= 0
  {
    if RowMajor(key) < |output| then GameTree.Fin(output[RowMajor(key)]) else GameTree.NegInf
  }

  function KeyProbabilities(output: seq<real>, keys: seq<Coord>): (r: seq<GameTree.Bound>)
    requires forall k | 0 <= k < |keys| :: RowMajor(keys[k]) >= 0
    ensures |r| == |keys| && forall k | 0 <= k < |keys| :: r[k] == KeyProbability(output, keys[k])
  {
    seq(|keys|, k requires 0 <= k < |keys| => KeyProbability(output, keys[k]))
  }

  /** A key takes part when its index is inside `output` and its entry beats the initial -1. */
  predicate Candidate(output: seq<real>, key: Coord)
  {
    0 <= RowMajor(key) < |output| && output[RowMajor(key)] > -1.0
  }

  /**
   * mapToMove(output, availableMoves), the keys visited in the order `keys`.  The loop visits
   * every key, and a key whose index x*8+y is negative passes `index < output.length` and then
   * fails the array access with an ArrayIndexOutOfBoundsException.  Otherwise the answer is the
   * first key whose entry is strictly the largest among the keys inside `output`, if that entry
   * exceeds -1, and nothing when no key takes part.
   */
  function MapToMove(output: seq<real>, keys: seq<Coord>): (r: Result<Option<Coord>, string>)
    ensures r.Failure? <==> exists k | 0 <= k < |keys| :: RowMajor(keys[k]) < 0
    ensures r.Success? ==> (r.value.None? <==> forall k | 0 <= k < |keys| :: !Candidate(output, keys[k]))
    ensures r.Success? && r.value.Some? ==> exists i | 0 <= i < |keys| ::
      r.value.value == keys[i] && Candidate(output, keys[i]) &&
      (forall k | 0 <= k < |keys| && RowMajor(keys[k]) < |output| ::
        output[RowMajor(keys[k])] <= output[RowMajor(keys[i])]) &&
      (forall k | 0 <= k < i && RowMajor(keys[k]) < |output| ::
        output[RowMajor(keys[k])] < output[RowMajor(keys[i])])
  {
    if exists k | 0 <= k < |keys| :: RowMajor(keys[k]) < 0 then
      Failure("ArrayIndexOutOfBoundsException")
    else
      var probabilities := KeyProbabilities(output, keys);
      match GameTree.FirstMax(probabilities, GameTree.Fin(-1.0))
      case None => Success(None)
      case Some(i) =>
        assert GameTree.Lt(GameTree.Fin(-1.0), probabilities[i]);
        Success(Some(keys[i]))
  }

  /** Read against the moves map of a board: no key fails, the answer is one of its keys, and some key when one takes part. */
  lemma MoveIsAvailable(output: seq<real>, keys: seq<Coord>, moves: map<Coord, seq<Coord>>)
    requires IsEnumeration(keys, moves)
    requires forall k | 0 <= k < |keys| :: InBounds(keys[k].x, keys[k].y)
    ensures MapToMove(output, keys).Success?
    ensures MapToMove(output, keys).value.Some? ==> MapToMove(output, keys).value.value in moves
    ensures MapToMove(output, keys).value.None? <==> forall c | c in moves :: !Candidate(output, c)
  {
  }
}
