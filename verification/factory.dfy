/**
 * StrategyFactory.createStrategy: a strategy name selects one of the four strategies; any
 * other name is an IllegalArgumentException, modelled as a failure carrying its message.
 */
module Factory {
  import opened Wrappers

  /**
   * The strategies the factory can build.  The "custom" strategy is a NeuralStrategy over the
   * network of createDefaultNetwork, which returns null: `hasNetwork` records that.
   */
  datatype Strategy = MinimaxStrategy | ExpectimaxStrategy | MctsStrategy | NeuralStrategy(hasNetwork: bool)

  /** The names the factory accepts. */
  predicate Known(name: string)
  {
    name == "minimax" || name == "expectimax" || name == "mcts" || name == "custom"
  }

  /** createStrategy(strategyName). */
  function CreateStrategy(name: string): (r: Result<Strategy, string>)
    ensures r.Success? <==> Known(name)
    ensures r.Failure? ==> r.error == "Unknown strategy: " + name
    ensures r.Success? && r.value.NeuralStrategy? ==> !r.value.hasNetwork
  {
    match name
    case "minimax" => Success(MinimaxStrategy)
    case "expectimax" => Success(ExpectimaxStrategy)
    case "mcts" => Success(MctsStrategy)
    case "custom" => Success(NeuralStrategy(false))
    case _ => Failure("Unknown strategy: " + name)
  }

  /** The name each strategy is created under. */
  function NameOf(s: Strategy): string
  {
    match s
    case MinimaxStrategy => "minimax"
    case ExpectimaxStrategy => "expectimax"
    case MctsStrategy => "mcts"
    case NeuralStrategy(_) => "custom"
  }

  /**
   * Names and strategies correspond one to one: every strategy the factory can build comes back
   * from its own name, and a built strategy carries the name it was asked for.
   */
  lemma NamesRoundTrip(name: string, s: Strategy)
    ensures CreateStrategy(NameOf(s)).Success?
    ensures s != NeuralStrategy(true) ==> CreateStrategy(NameOf(s)) == Success(s)
    ensures CreateStrategy(name).Success? ==> NameOf(CreateStrategy(name).value) == name
  {
  }

  /** Distinct known names give distinct strategies. */
  lemma NamesDistinguishStrategies(a: string, b: string)
    requires Known(a) && Known(b) && a != b
    ensures CreateStrategy(a) != CreateStrategy(b)
  {
    NamesRoundTrip(a, MinimaxStrategy);
    NamesRoundTrip(b, MinimaxStrategy);
  }
}
