# Divide-by-2/3/4 game: rules, game tree and AI search, in Dafny

This project models `game.py` of a small two-player game. A number is shared
between the player and an AI. On each turn the side to move divides it by 2, 3
or 4 (integer division). The mover scores +1 when the result is odd and -1
when it is even. A shared bank gains a coin whenever the result is a multiple
of 5. The game goes on while the number is above 10. The AI picks its move by
searching a game tree: plain minimax or alpha-beta pruning over the same tree,
with leaves scored by a five-term heuristic.

Files and modules:

- `ext_real.dfy` (`ExtendedReals`): the reals with -inf and +inf. These stand
  for the `float('-inf')` and `float('inf')` start values of the searches.
- `rules.dfy` (`Rules`): the game state as a value. It holds `Apply` (one
  move, as `make_move` does it), `Active` (`__bool__`) and `Run` (the game
  loop of the front ends). It also proves that every game ends.
- `game_tree.dfy` (`GameTrees`): tree nodes as a datatype. It holds `Tree`
  (what `_subtree` builds), the node count, and `BuildSubtree`, the loop of
  `_subtree` as a recursive method.
- `heuristic.dfy` (`Scoring`): `heuristic_eval` and its five terms.
- `minimax.dfy` (`MinimaxSearch`): `_minimax` as a function (`Minimax`), its
  loop as a prefix scan (`MinimaxScan`), and the same loop as a method
  (`SearchMinimax`).
- `alpha_beta.dfy` (`AlphaBetaSearch`): `_alpha_beta` in the same three
  forms, and the proofs that it agrees with minimax.
- `game.dfy` (`GameEngine`): the classes `Player` and `Game`. Their fields
  are updated in place. Their methods are tied to the value model above.

Behaviour of game.py worth knowing:

- `is_player` on a tree node says which side is to move AT that node. The
  scores of that side change on the way to its children (game.py:91-93), and
  the heuristic's end-game term is negated when the player is to move. It
  does not say which side produced the node.
- `make_move` checks nothing (game.py:61-64). It neither rejects a bad divisor
  nor refuses to move in a finished game. The model takes the divisor range
  2..4 as a precondition and puts no condition on the number.
- Alpha-beta from (-inf, +inf) returns the same value and the same move as
  minimax, ties included (`AlphaBetaAgreesWithMinimax`). Its pruning is the
  usual fail-hard alpha-beta: a maximizing node only raises alpha, a
  minimizing node only lowers beta.
- The heuristic's G term subtracts the child's AI score from itself
  (game.py:35). The model keeps this as written, so only the player's score
  changes count in G (`GainOnExpanded`).
- The tree is built to the same depth as the search. So both searches score
  only nodes without children (`ScoresOnlyChildless` for minimax,
  `ABScoresOnlyChildless` for alpha-beta, whose scored nodes are among those
  of minimax by `ABScoresWhatMinimaxScores`). There the G, I and E
  terms are all zero, and the value the AI settles on is always
  10 (ai - player) + 10 bank / number at some leaf (`SearchValueIsLeafScore`).

Python's `//` and `%` floor. With the positive divisors used here (2, 3, 4
and 5), Dafny's Euclidean `/` and `%` agree with them on every integer.

## Model

| member | source | states |
|---|---|---|
| `Rules.ScoreChange` | game.py:64 | the mover's change is +1 or -1, and +1 exactly when the new number is odd |
| `Rules.BankGain` | game.py:63 | the bank gains 0 or 1 coin, and 1 exactly when the new number is a multiple of 5 |
| `Rules.Apply` | game.py:61-64 | the new number is the floor of number / divisor; a positive number strictly decreases; a number above 10 leaves at least 2; the bank grows by 1 iff the new number is a multiple of 5, else stays; only the mover's points change, by +1 for odd and -1 for even |
| `Rules.MoveAtLeastHalves` | game.py:62 | every move at least halves a non-negative number |
| `Rules.RunEnds` | game.py:195-196 | any sequence of valid moves ends the game once the number is below 11 * 2^(number of moves) |
| `Rules.HalvingFrom24000` | game.py:189-196 | from 24000, eleven halvings leave 11 and the game is still on; a twelfth leaves 5 and ends it |
| `GameTrees.Tree` | game.py:69-103 | the node holds the given state and turn; it has no children iff the depth is 0 or the number is at most 10; otherwise its children are the moves 2, 3, 4 in order, each the state after that move with the turn flipped; a non-zero root gives a tree without the number 0 |
| `GameTrees.TreeWellFormed` | game.py:80-101 | every node of the generated tree follows that rule, with one level less of depth below each node |
| `GameTrees.ExpandedChildren` | game.py:88-96 | each child holds number // d, at least 2 and below its parent; its bank grows by 1 iff that number is a multiple of 5; only the mover's score changes, by +1 for odd and -1 for even |
| `GameTrees.BuildSubtree` | game.py:69-103 | the loop over the divisors builds exactly the tree `Tree` describes, and the node count it returns is the number of nodes in that tree |
| `GameTrees.NodeCountBound` | game.py:78-103 | the node count for depth k is at most (3^(k+1) - 1) / 2, with equality iff no node above depth k has the game over |
| `Scoring.BankPotential` | game.py:40-44 | I is the size of the set of children whose number is a multiple of 5, so at most the number of children |
| `Scoring.MaxEndGame` | game.py:48-51 | the result is one of the children's end-game values, and no child's end-game value exceeds it |
| `Scoring.EndGame` | game.py:47-54 | E is non-zero only on a node with children whose number // 4 is at most 10 |
| `Scoring.Heuristic` | game.py:26-57 | on a node without children the score is exactly 10 (ai - player) + 10 bank / number |
| `Scoring.GainOnExpanded` | game.py:34-37 | on an expanded node G is 0 when the AI is to move, and minus the sum of the player's three score changes when the player is to move |
| `Scoring.BankPotentialOnExpanded` | game.py:40-44 | on an expanded node I equals the total bank growth over the three moves |
| `Scoring.EndGameOnExpanded` | game.py:47-54 | on an expanded node E is non-zero only for numbers 11 to 43, and then dividing by 4 ends the game |
| `MinimaxSearch.Minimax` | game.py:114-135 | the value is always finite; the move is None exactly when the depth is 0 or the node has no children |
| `MinimaxSearch.MinimaxScan` | game.py:123-133 | after k children the running move is set iff k > 0, and then the running value is finite |
| `MinimaxSearch.MinimaxScanBest` | game.py:127-133 | after k children the running best is the value and move of a child that no other child beats, and every earlier child is strictly worse |
| `MinimaxSearch.MinimaxChoosesFirstBest` | game.py:119-135 | at an inner node the result is the maximum (or minimum) of the children's values, and the move is the first divisor reaching it |
| `MinimaxSearch.ScoresOnlyChildless` | game.py:120-121 | on a tree built with the search's own depth, every node the search scores has no children |
| `MinimaxSearch.MinimaxValueIsScored` | game.py:119-135 | the returned value is the heuristic score of one of the nodes the search scored |
| `MinimaxSearch.SearchMinimax` | game.py:114-135 | the recursive loop returns exactly the value and move of `Minimax` |
| `AlphaBetaSearch.AlphaBeta` | game.py:149-180 | a leaf returns a finite value and no move; a maximizing inner node returns at least its alpha; a minimizing inner node returns at most its beta |
| `AlphaBetaSearch.AlphaBetaScan` | game.py:163-178 | a maximizing node never moves beta and never lowers alpha; a minimizing node never moves alpha and never raises beta; a move is recorded only after some child has been searched |
| `AlphaBetaSearch.CutPersists` | game.py:177-178 | once the loop breaks off, the remaining children change nothing |
| `AlphaBetaSearch.AlphaBetaBounds` | game.py:149-180 | with alpha < beta the result equals the minimax value when that lies strictly inside the window, is at most alpha when the minimax value is, and at least beta when the minimax value is |
| `AlphaBetaSearch.MaxScanInvariant` | game.py:167-170 | at a maximizing node, until the break alpha is the larger of its start and the best child value so far, below beta; after it both reach beta |
| `AlphaBetaSearch.MinScanInvariant` | game.py:171-174 | at a minimizing node, until the break beta is the smaller of its start and the best child value so far, above alpha; after it both reach alpha |
| `AlphaBetaSearch.RootScanAgrees` | game.py:183-185 | from (-inf, +inf) the root loop never breaks off, and its moving bound and move equal minimax's running best and move at every step |
| `AlphaBetaSearch.ABScoresOnlyChildless` | game.py:157-158 | on a tree built with the search's own depth, every node alpha-beta scores, under any window, has no children |
| `AlphaBetaSearch.ABScoresWhatMinimaxScores` | game.py:163-178 | every node alpha-beta scores, the children after a break-off left out, is also scored by minimax |
| `AlphaBetaSearch.AlphaBetaAgreesWithMinimax` | game.py:183-185 | from (-inf, +inf) alpha-beta returns the same value and the same move as minimax, on every tree |
| `AlphaBetaSearch.SearchAlphaBeta` | game.py:149-180 | the recursive loop with its break returns exactly the value and move of `AlphaBeta` |
| `GameEngine.Player.constructor` | game.py:4-5 | a new side starts at 0 points |
| `GameEngine.Game.constructor` | game.py:20-24 | a new game holds the number, two distinct fresh sides at 0 points, and an empty bank |
| `GameEngine.Game.MakeMove` | game.py:61-64 | the number becomes number // divisor; the bank gains a coin iff it is a multiple of 5; the mover's points move by +1 for odd and -1 for even; nothing else changes; the new state is `Apply` of the old |
| `GameEngine.Game.MakePlayerMove` | game.py:189-190 | the player's move, as `Apply` with the player moving; a positive number strictly decreases |
| `GameEngine.Game.MakeAiBotMove` | game.py:192-193 | the AI's move, as `Apply` with the AI moving; a positive number strictly decreases |
| `GameEngine.Game.GameTree` | game.py:68-105 | the tree rooted at the live state with `current` to move, well formed for the depth, with its node count, at most (3^(depth+1) - 1) / 2 |
| `GameEngine.Game.Minimax` | game.py:109-140 | the minimax result on the tree with the AI to move; the value is finite; the move is None exactly when the depth is 0 or the game is over, and otherwise is 2, 3 or 4 |
| `GameEngine.Game.AlphaBeta` | game.py:144-185 | the alpha-beta result on that tree, which equals the minimax result in value and in move |
| `GameEngine.SearchValueIsLeafScore` | game.py:109-140 | the value the AI's search settles on is 10 (ai - player) + 10 bank / number at a node without children that the search scored |

## Left out

- The console and window front ends (cli.py, gui.py) are not part of this
  model. This covers prompts, rendering, timing, and the random choice of the
  starting number. `Rules.Run` only restates their game loop so that
  termination can be stated.
- The end-of-game award of the bank to the side that did not make the last
  move (cli.py:53-55, gui.py:146-148) is not modelled.
- The `print` of the node count (game.py:139, 184) is output only. The count
  itself is modelled.
- Floating point: the heuristic is an exact real, and the infinities are
  `ExtReal` values. Python's rounding of `bank * 10 / value` is not modelled.
- `Scoring.Heuristic`, `MinimaxSearch.Minimax` and `AlphaBetaSearch.AlphaBeta`
  require that no node holds the number 0. Python raises ZeroDivisionError
  there (game.py:31). The `Game` searches require a non-zero number for the
  same reason.
- `GameEngine.Game.MakeMove`: divisors outside 2..4 are excluded by the
  precondition. The code accepts any non-zero divisor and never receives one
  outside 2..4 from its callers.
- Tree nodes are immutable values. Python creates a node and then fills its
  `children` dictionary in place (game.py:84-101). A node with an empty
  dictionary, as opposed to None, never arises and cannot be expressed here.
- `Rules.Active` and `GameEngine.Game.IsActive` (`__bool__`, game.py:195-196)
  carry no contract of their own: each is the comparison number > 10. What
  it means for a game is stated by `Rules.RunEnds` and
  `Rules.HalvingFrom24000`.
