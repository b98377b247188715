/** The rules of the divide-by-2/3/4 game on plain values: the state a move
    acts on, the move itself (`Game.make_move` in game.py), whether the game
    is still on (`Game.__bool__`), and the game loop that the console and
    window front ends run. The class `GameEngine.Game` is tied to this model.

    Python's `//` and `%` floor; with the positive divisors used here (2, 3,
    4 and 5) Dafny's Euclidean `/` and `%` give the same results for every
    integer, negative ones included. */
module Rules {

  /** The game is decided once the number is at most this. */
  const Threshold: int := 10

  datatype State = State(number: int, playerPoints: int, aiBotPoints: int, bank: int)

  /** Points the mover gains: +1 for an odd result, -1 for an even one. */
  function ScoreChange(number: int): (c: int)
    ensures c == 1 || c == -1
    ensures c == 1 <==> number % 2 == 1
  {
    if number % 2 == 0 then -1 else 1
  }

  /** Coins added to the bank: one when the result is divisible by 5. */
  function BankGain(number: int): (g: int)
    ensures g == 0 || g == 1
    ensures g == 1 <==> number % 5 == 0
  {
    if number % 5 == 0 then 1 else 0
  }

  predicate Active(s: State)
  {
    s.number > Threshold
  }

  /** One move: the side given by `byPlayer` divides the number. */
  function Apply(s: State, byPlayer: bool, divisor: int): (t: State)
    requires 2 <= divisor <= 4
    ensures t.number * divisor <= s.number < (t.number + 1) * divisor
    ensures s.number > 0 ==> 0 <= t.number < s.number
    ensures Active(s) ==> t.number >= 2
    ensures t.bank == s.bank + 1 <==> t.number % 5 == 0
    ensures t.bank == s.bank || t.bank == s.bank + 1
    ensures (if byPlayer then t.aiBotPoints else t.playerPoints)
         == (if byPlayer then s.aiBotPoints else s.playerPoints)
    ensures (if byPlayer then t.playerPoints - s.playerPoints else t.aiBotPoints - s.aiBotPoints)
         == (if t.number % 2 == 1 then 1 else -1)
  {
    var n := s.number / divisor;
    State(n,
          s.playerPoints + (if byPlayer then ScoreChange(n) else 0),
          s.aiBotPoints + (if byPlayer then 0 else ScoreChange(n)),
          s.bank + BankGain(n))
  }

  predicate ValidMoves(moves: seq<int>)
  {
    forall i :: 0 <= i < |moves| ==> 2 <= moves[i] <= 4
  }

  /** The game loop: while the game is on, the side to move plays the next
      divisor, and the turn passes. Stops early once the game is over. */
  function Run(s: State, playerMoves: bool, moves: seq<int>): State
    requires ValidMoves(moves)
    decreases |moves|
  {
    if moves == [] || !Active(s) then s
    else Run(Apply(s, playerMoves, moves[0]), !playerMoves, moves[1..])
  }

  function Pow2(k: nat): (p: nat)
    ensures p >= 1
  {
    if k == 0 then 1 else 2 * Pow2(k - 1)
  }

  /** Every move at least halves a non-negative number. */
  lemma MoveAtLeastHalves(s: State, byPlayer: bool, divisor: int)
    requires 2 <= divisor <= 4 && s.number >= 0
    ensures 2 * Apply(s, byPlayer, divisor).number <= s.number
  {
  }

  /** Any sequence of moves ends the game once the number is below
      11 * 2^|moves|: k moves divide the number by at least 2^k. */
  lemma {:induction false} RunEnds(s: State, playerMoves: bool, moves: seq<int>)
    requires ValidMoves(moves)
    requires s.number < (Threshold + 1) * Pow2(|moves|)
    ensures !Active(Run(s, playerMoves, moves))
    decreases |moves|
  {
    if moves != [] && Active(s) {
      var t := Apply(s, playerMoves, moves[0]);
      MoveAtLeastHalves(s, playerMoves, moves[0]);
      assert ValidMoves(moves[1..]) by {
        forall i | 0 <= i < |moves[1..]| ensures 2 <= moves[1..][i] <= 4 {
          assert moves[1..][i] == moves[i + 1];
        }
      }
      assert t.number < (Threshold + 1) * Pow2(|moves[1..]|);
      RunEnds(t, !playerMoves, moves[1..]);
    }
  }

  /** Eleven halvings, as moves. */
  function Halvings(k: nat): (moves: seq<int>)
    ensures |moves| == k && ValidMoves(moves)
  {
    seq(k, _ => 2)
  }

  lemma RunStep(s: State, playerMoves: bool, moves: seq<int>)
    requires ValidMoves(moves) && moves != [] && Active(s)
    ensures ValidMoves(moves[1..])
    ensures Run(s, playerMoves, moves) == Run(Apply(s, playerMoves, moves[0]), !playerMoves, moves[1..])
  {
    assert forall i :: 0 <= i < |moves[1..]| ==> moves[1..][i] == moves[i + 1];
  }

  lemma HalvingsTail(k: nat)
    ensures Halvings(k + 1)[0] == 2 && Halvings(k + 1)[1..] == Halvings(k)
  {
    assert forall i :: 0 <= i < k ==> Halvings(k + 1)[1..][i] == Halvings(k)[i];
  }

  /** Halving 24000 eleven times leaves 11, so the game is still on; one
      more halving leaves 5 and ends it. */
  lemma HalvingFrom24000(start: State, playerMoves: bool)
    requires start.number == 24000
    ensures var s := Run(start, playerMoves, Halvings(11));
            s.number == 11 && Active(s) && Apply(s, !playerMoves, 2).number == 5 && !Active(Apply(s, !playerMoves, 2))
  {
    var numbers := [24000, 12000, 6000, 3000, 1500, 750, 375, 187, 93, 46, 23, 11];
    var s := start;
    var p := playerMoves;
    assert forall j :: 0 <= j < 11 ==> numbers[j + 1] == numbers[j] / 2 && numbers[j] > Threshold;
    for k := 0 to 11
      invariant Run(start, playerMoves, Halvings(11)) == Run(s, p, Halvings(11 - k))
      invariant s.number == numbers[k]
    {
      HalvingsTail(10 - k);
      RunStep(s, p, Halvings(11 - k));
      s, p := Apply(s, p, 2), !p;
    }
  }
}
