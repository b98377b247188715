/** `Game.heuristic_eval` in game.py: how good a position looks for the AI,
    as a weighted sum of five terms. Python computes it in floating point;
    here it is an exact real. */
module Scoring {
  import opened Rules
  import opened GameTrees

  /** S: the AI's score minus the player's. */
  function ScoreDifference(n: Node): int
  {
    n.aiBotScore - n.playerScore
  }

  /** B: ten times the bank over the number; it grows as the game nears
      its end. Python raises ZeroDivisionError on the number 0. */
  function BankPressure(n: Node): real
    requires n.value != 0
  {
    (n.bank * 10) as real / n.value as real
  }

  /** G: the sum over the children of (AI score change - AI score change)
      - (player score change). The AI part is subtracted from itself as
      game.py writes it, so only the player's changes count. */
  function GainPotential(n: Node): int
  {
    GainSum(n, |n.children|)
  }

  function GainSum(n: Node, k: nat): int
    requires k <= |n.children|
  {
    if k == 0 then 0
    else
      var c := n.children[k - 1].child;
      GainSum(n, k - 1) + ((c.aiBotScore - c.aiBotScore) - (c.playerScore - n.playerScore))
  }

  /** I: how many children hold a multiple of 5, that is, how many moves
      would add to the bank. */
  function BankPotential(n: Node): (count: nat)
    ensures count == |BankMoves(n, |n.children|)|
    ensures count <= |n.children|
  {
    BankCount(n, |n.children|)
  }

  /** The positions, among the first k children, of those that hold a
      multiple of 5. */
  function BankMoves(n: Node, k: nat): set<nat>
    requires k <= |n.children|
  {
    set i: nat | i < k && n.children[i].child.value % 5 == 0
  }

  function BankCount(n: Node, k: nat): (count: nat)
    requires k <= |n.children|
    ensures count == |BankMoves(n, k)|
    ensures count <= k
  {
    if k == 0 then
      assert BankMoves(n, 0) == {};
      0
    else
      var hit := n.children[k - 1].child.value % 5 == 0;
      assert BankMoves(n, k) == BankMoves(n, k - 1) + (if hit then {k - 1} else {});
      assert k - 1 !in BankMoves(n, k - 1);
      BankCount(n, k - 1) + (if hit then 1 else 0)
  }

  /** What a child is worth to whoever would take the bank there: the bank
      plus one for an odd number, minus one for an even one. */
  function EndGameValue(c: Node): int
  {
    c.bank + (if c.value % 2 == 0 then -1 else 1)
  }

  /** The largest end-game value among the first k children (Python's
      `max` over the list). */
  function MaxEndGame(n: Node, k: nat): (m: int)
    requires 1 <= k <= |n.children|
    ensures exists i :: 0 <= i < k && m == EndGameValue(n.children[i].child)
    ensures forall i :: 0 <= i < k ==> EndGameValue(n.children[i].child) <= m
  {
    var v := EndGameValue(n.children[k - 1].child);
    if k == 1 then v
    else
      var best := MaxEndGame(n, k - 1);
      if v > best then v else best
  }

  /** E: near the end of the game (a quarter of the number at most 10),
      the best end-game value among the children, counted against the AI
      when the player is to move; 0 elsewhere and on nodes without
      children. */
  function EndGame(n: Node): (e: int)
    ensures e != 0 ==> n.children != [] && n.value / 4 <= Threshold
  {
    if n.children != [] && n.value / 4 <= Threshold then
      (if n.isPlayer then -1 else 1) * MaxEndGame(n, |n.children|)
    else 0
  }

  /** The weighted sum 10 S + B + 3 G + 5 I + 10 E. On a node without
      children only the score difference and the bank pressure remain. */
  function Heuristic(n: Node): (h: real)
    requires n.value != 0
    ensures n.children == [] ==>
      h == (10 * (n.aiBotScore - n.playerScore)) as real + (10 * n.bank) as real / n.value as real
  {
    (10 * ScoreDifference(n)) as real + BankPressure(n) + (3 * GainPotential(n)) as real
      + (5 * BankPotential(n)) as real + (10 * EndGame(n)) as real
  }

  /** On a node the game tree expanded, G is zero when the AI is to move,
      and when the player is to move it is minus the sum of the player's
      score changes over the three moves: the AI's changes never count. */
  lemma GainOnExpanded(n: Node)
    requires Expanded(n)
    ensures var c0, c1, c2 := n.children[0].child, n.children[1].child, n.children[2].child;
      GainPotential(n)
        == if n.isPlayer then -(ScoreChange(c0.value) + ScoreChange(c1.value) + ScoreChange(c2.value)) else 0
  {
    forall i | 0 <= i < 3
      ensures var c := n.children[i].child;
        c.playerScore - n.playerScore == if n.isPlayer then ScoreChange(c.value) else 0
    {
      ExpandedChildren(n, i);
    }
    var g0 := n.children[0].child.playerScore - n.playerScore;
    var g1 := n.children[1].child.playerScore - n.playerScore;
    var g2 := n.children[2].child.playerScore - n.playerScore;
    assert GainSum(n, 1) == -g0;
    assert GainSum(n, 2) == -g0 - g1;
    assert GainSum(n, 3) == -g0 - g1 - g2;
  }

  /** On a node the game tree expanded, I is the total by which the three
      moves would grow the bank. */
  lemma BankPotentialOnExpanded(n: Node)
    requires Expanded(n)
    ensures BankPotential(n)
         == (n.children[0].child.bank - n.bank) + (n.children[1].child.bank - n.bank)
          + (n.children[2].child.bank - n.bank)
  {
    forall i | 0 <= i < 3
      ensures var c := n.children[i].child;
        c.bank - n.bank == if c.value % 5 == 0 then 1 else 0
    {
      ExpandedChildren(n, i);
    }
    assert BankCount(n, 1) == n.children[0].child.bank - n.bank;
    assert BankCount(n, 2) == BankCount(n, 1) + (n.children[1].child.bank - n.bank);
  }

  /** On a node the game tree expanded, E is non-zero only when the number
      lies between 11 and 43, where dividing by 4 ends the game. */
  lemma EndGameOnExpanded(n: Node)
    requires Expanded(n)
    ensures EndGame(n) != 0 ==> Threshold < n.value < 4 * (Threshold + 1)
    ensures EndGame(n) != 0 <==> n.value / 4 <= Threshold && MaxEndGame(n, 3) != 0
    ensures EndGame(n) != 0 ==> !Active(StateOf(n.children[2].child))
  {
    ExpandedChildren(n, 2);
  }
}
