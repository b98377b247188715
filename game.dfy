/** The live game (`Player` and `Game` in game.py): the state the two sides
    change in place, and the AI's two ways of choosing a move from the game
    tree rooted at it. */
module GameEngine {
  import opened Rules
  import opened ExtendedReals
  import opened GameTrees
  import opened Scoring
  import opened MinimaxSearch
  import opened AlphaBetaSearch

  /** A side's running score. */
  class Player {
    var points: int

    constructor()
      ensures points == 0
    {
      points := 0;
    }
  }

  class Game {
    var number: int
    var player: Player
    var aiBot: Player
    var bank: int

    /** The two sides are different objects. */
    ghost predicate Valid()
      reads this
    {
      player != aiBot
    }

    /** The game's state as a value. */
    function Snapshot(): State
      reads this, player, aiBot
    {
      State(number, player.points, aiBot.points, bank)
    }

    constructor(number: int)
      ensures Valid() && fresh(player) && fresh(aiBot)
      ensures Snapshot() == State(number, 0, 0, 0)
    {
      this.number := number;
      player := new Player();
      aiBot := new Player();
      bank := 0;
    }

    /** `__bool__`: the game goes on while the number is above 10. */
    predicate IsActive()
      reads this
    {
      number > Threshold
    }

    /** `make_move`: divides the number, adds a coin to the bank when the
        result is a multiple of 5, and scores the mover +1 for an odd result
        and -1 for an even one. Only the mover's points change. */
    method MakeMove(current: Player, divisor: int)
      requires Valid() && 2 <= divisor <= 4
      modifies this, current
      ensures Valid() && player == old(player) && aiBot == old(aiBot)
      ensures number == old(number) / divisor
      ensures bank == old(bank) + (if number % 5 == 0 then 1 else 0)
      ensures current.points == old(current.points) + (if number % 2 == 0 then -1 else 1)
      ensures current == player || current == aiBot ==>
                Snapshot() == Apply(old(Snapshot()), current == player, divisor)
    {
      number := number / divisor;
      bank := bank + (if number % 5 == 0 then 1 else 0);
      current.points := current.points + (if number % 2 == 0 then -1 else 1);
    }

    /** `make_player_move`: the player plays the divisor. */
    method MakePlayerMove(divisor: int)
      requires Valid() && 2 <= divisor <= 4
      modifies this, player
      ensures Valid() && player == old(player) && aiBot == old(aiBot)
      ensures Snapshot() == Apply(old(Snapshot()), true, divisor)
      ensures old(number) > 0 ==> number < old(number)
    {
      MakeMove(player, divisor);
    }

    /** `make_ai_bot_move`: the AI plays the divisor. */
    method MakeAiBotMove(divisor: int)
      requires Valid() && 2 <= divisor <= 4
      modifies this, aiBot
      ensures Valid() && player == old(player) && aiBot == old(aiBot)
      ensures Snapshot() == Apply(old(Snapshot()), false, divisor)
      ensures old(number) > 0 ==> number < old(number)
    {
      MakeMove(aiBot, divisor);
    }

    /** `game_tree`: the tree of hypothetical states from the live game,
        `current` to move at the root, and its node count. */
    method GameTree(current: Player, depth: int) returns (root: Node, nodeCount: int)
      requires Valid()
      ensures root == Tree(Snapshot(), current == player, depth)
      ensures WellFormed(root, depth)
      ensures nodeCount == Size(root)
      ensures depth >= 0 ==> 2 * nodeCount + 1 <= Pow3(depth + 1)
    {
      root, nodeCount := BuildSubtree(Snapshot(), current == player, depth);
      TreeWellFormed(Snapshot(), current == player, depth);
      if depth >= 0 {
        NodeCountBound(Snapshot(), current == player, depth);
      }
    }

    /** `minimax`: builds the tree with the AI to move and searches it. The
        move is None exactly when the depth is 0 or the game is over;
        otherwise it is one of the three divisors. */
    method Minimax(depth: int, isMaximizing: bool) returns (value: ExtReal, move: Option<int>)
      requires Valid() && number != 0
      ensures SearchResult(value, move) == MinimaxSearch.Minimax(Tree(Snapshot(), false, depth), depth, isMaximizing)
      ensures value.Fin?
      ensures move.None? <==> depth == 0 || number <= Threshold
      ensures move.Some? ==> 2 <= move.value <= 4
    {
      var root, nodes := GameTree(aiBot, depth);
      value, move := SearchMinimax(root, depth, isMaximizing);
      if move.Some? {
        MinimaxChoosesFirstBest(root, depth, isMaximizing);
      }
    }

    /** `alpha_beta`: builds the same tree and searches it with pruning from
        (-inf, +inf); it returns exactly what `minimax` returns. */
    method AlphaBeta(depth: int, isMaximizing: bool) returns (value: ExtReal, move: Option<int>)
      requires Valid() && number != 0
      ensures SearchResult(value, move)
           == AlphaBetaSearch.AlphaBeta(Tree(Snapshot(), false, depth), NegInf, PosInf, depth, isMaximizing)
      ensures SearchResult(value, move) == MinimaxSearch.Minimax(Tree(Snapshot(), false, depth), depth, isMaximizing)
    {
      var root, nodes := GameTree(aiBot, depth);
      value, move := SearchAlphaBeta(root, NegInf, PosInf, depth, isMaximizing);
      AlphaBetaAgreesWithMinimax(root, depth, isMaximizing);
    }
  }

  /** What the AI's search settles on is the score of a position without
      children (the end of the depth budget or of the game), where the
      heuristic reduces to 10 (ai - player) + 10 bank / number. */
  lemma SearchValueIsLeafScore(s: State, depth: int, isMaximizing: bool)
    requires s.number != 0
    ensures var root := Tree(s, false, depth);
      exists m :: m in Evaluated(root, depth) && m.children == [] && m.value != 0
        && MinimaxSearch.Minimax(root, depth, isMaximizing).value
           == Fin((10 * (m.aiBotScore - m.playerScore)) as real + (10 * m.bank) as real / m.value as real)
  {
    var root := Tree(s, false, depth);
    TreeWellFormed(s, false, depth);
    ScoresOnlyChildless(root, depth);
    MinimaxValueIsScored(root, depth, isMaximizing);
  }
}
