/** `Game.minimax` in game.py: exhaustive search of the game tree, the
    maximizing and minimizing sides alternating level by level, the move
    kept being the first one (in ascending divisor order) that reaches the
    best value. */
module MinimaxSearch {
  import opened ExtendedReals
  import opened GameTrees
  import opened Scoring

  datatype Option<T> = None | Some(value: T)

  /** What a search returns: the value and the move, None where the search
      did not look below the node. */
  datatype SearchResult = SearchResult(value: ExtReal, move: Option<int>)

  /** The search scores the node itself, without looking deeper: the depth
      is spent or there is no move. */
  predicate Stops(n: Node, depth: int)
  {
    depth == 0 || n.children == []
  }

  /** `a` is strictly better than `b` for the side to move. */
  predicate Better(isMaximizing: bool, a: ExtReal, b: ExtReal)
  {
    if isMaximizing then Less(b, a) else Less(a, b)
  }

  /** The start value of the running best: -inf when maximizing, +inf when
      minimizing. */
  function WorstValue(isMaximizing: bool): ExtReal
  {
    if isMaximizing then NegInf else PosInf
  }

  /** `_minimax` in game.py, as a value. */
  function Minimax(n: Node, depth: int, isMaximizing: bool): (r: SearchResult)
    requires NonZeroValues(n)
    ensures r.value.Fin?
    ensures r.move.None? <==> Stops(n, depth)
    decreases n
  {
    if Stops(n, depth) then SearchResult(Fin(Heuristic(n)), None)
    else MinimaxScan(n, depth, isMaximizing, |n.children|)
  }

  /** `best_value` and `best_move` once the loop of `_minimax` has looked at
      the first k children: a child replaces the running best only when it
      is strictly better. */
  function MinimaxScan(n: Node, depth: int, isMaximizing: bool, k: nat): (r: SearchResult)
    requires NonZeroValues(n) && k <= |n.children|
    ensures k == 0 <==> r.move.None?
    ensures k > 0 ==> r.value.Fin?
    decreases n, k
  {
    if k == 0 then SearchResult(WorstValue(isMaximizing), None)
    else
      var best := MinimaxScan(n, depth, isMaximizing, k - 1);
      var b := n.children[k - 1];
      var v := Minimax(b.child, depth - 1, !isMaximizing).value;
      if Better(isMaximizing, v, best.value) then SearchResult(v, Some(b.divisor)) else best
  }

  /** The value the search gives the i-th child. */
  function ChildValue(n: Node, depth: int, isMaximizing: bool, i: int): ExtReal
    requires NonZeroValues(n) && 0 <= i < |n.children|
  {
    Minimax(n.children[i].child, depth - 1, !isMaximizing).value
  }

  /** After k children the running best is the value and the move of the
      first child among them that no other child beats. */
  lemma {:induction false} MinimaxScanBest(n: Node, depth: int, isMaximizing: bool, k: nat)
    requires NonZeroValues(n) && 1 <= k <= |n.children|
    ensures var r := MinimaxScan(n, depth, isMaximizing, k);
      && (exists i :: 0 <= i < k && r.move == Some(n.children[i].divisor)
            && r.value == ChildValue(n, depth, isMaximizing, i)
            && forall j :: 0 <= j < i ==> Better(isMaximizing, r.value, ChildValue(n, depth, isMaximizing, j)))
      && forall j :: 0 <= j < k ==> !Better(isMaximizing, ChildValue(n, depth, isMaximizing, j), r.value)
    decreases k
  {
    var r := MinimaxScan(n, depth, isMaximizing, k);
    var v := ChildValue(n, depth, isMaximizing, k - 1);
    if k == 1 {
      assert r.value == v;
      LessIrreflexive(v);
    } else {
      MinimaxScanBest(n, depth, isMaximizing, k - 1);
      var best := MinimaxScan(n, depth, isMaximizing, k - 1);
      var i :| 0 <= i < k - 1 && best.move == Some(n.children[i].divisor)
            && best.value == ChildValue(n, depth, isMaximizing, i)
            && forall j :: 0 <= j < i ==> Better(isMaximizing, best.value, ChildValue(n, depth, isMaximizing, j));
      if Better(isMaximizing, v, best.value) {
        forall j | 0 <= j < k
          ensures !Better(isMaximizing, ChildValue(n, depth, isMaximizing, j), v)
          ensures j < k - 1 ==> Better(isMaximizing, v, ChildValue(n, depth, isMaximizing, j))
        {
          var w := ChildValue(n, depth, isMaximizing, j);
          LessTotal(w, best.value);
          if j < k - 1 {
            if isMaximizing {
              if Less(w, best.value) { LessTransitive(w, best.value, v); }
            } else {
              if Less(best.value, w) { LessTransitive(v, best.value, w); }
            }
          }
          LessTotal(w, v);
          LessIrreflexive(v);
        }
      } else {
        forall j | 0 <= j < k
          ensures !Better(isMaximizing, ChildValue(n, depth, isMaximizing, j), best.value)
        {
        }
      }
    }
  }

  /** Away from a leaf, the search returns the value of a child that no
      other child beats (the maximum when maximizing, the minimum when
      minimizing), and the move is the first, smallest, divisor reaching
      it: every earlier child is strictly worse. */
  lemma MinimaxChoosesFirstBest(n: Node, depth: int, isMaximizing: bool)
    requires NonZeroValues(n) && !Stops(n, depth)
    ensures var r := Minimax(n, depth, isMaximizing);
      && (exists i :: 0 <= i < |n.children| && r.move == Some(n.children[i].divisor)
            && r.value == ChildValue(n, depth, isMaximizing, i)
            && forall j :: 0 <= j < i ==> Better(isMaximizing, r.value, ChildValue(n, depth, isMaximizing, j)))
      && forall j :: 0 <= j < |n.children| ==> !Better(isMaximizing, ChildValue(n, depth, isMaximizing, j), r.value)
  {
    MinimaxScanBest(n, depth, isMaximizing, |n.children|);
  }

  /** The nodes the search scores with the heuristic, left to right. */
  function Evaluated(n: Node, depth: int): (nodes: seq<Node>)
    ensures |nodes| >= 1
    decreases n
  {
    if Stops(n, depth) then [n] else EvaluatedScan(n, depth, |n.children|)
  }

  function EvaluatedScan(n: Node, depth: int, k: nat): seq<Node>
    requires k <= |n.children|
    decreases n, k
  {
    if k == 0 then [] else EvaluatedScan(n, depth, k - 1) + Evaluated(n.children[k - 1].child, depth - 1)
  }

  /** On a tree built with the same depth the search runs with, the search
      scores only nodes without children: it never stops at a depth cut
      below which the tree goes on. */
  lemma {:induction false} ScoresOnlyChildless(n: Node, depth: int)
    requires WellFormed(n, depth)
    ensures forall m :: m in Evaluated(n, depth) ==> m.children == []
    decreases n
  {
    if !Stops(n, depth) {
      ScanScoresOnlyChildless(n, depth, |n.children|);
    }
  }

  lemma {:induction false} ScanScoresOnlyChildless(n: Node, depth: int, k: nat)
    requires WellFormed(n, depth) && k <= |n.children|
    ensures forall m :: m in EvaluatedScan(n, depth, k) ==> m.children == []
    decreases n, k
  {
    if k > 0 {
      ScanScoresOnlyChildless(n, depth, k - 1);
      ScoresOnlyChildless(n.children[k - 1].child, depth - 1);
    }
  }

  /** Every node the search scores comes from the tree it searched, so none
      holds the number 0. */
  lemma {:induction false} EvaluatedNonZero(n: Node, depth: int)
    requires NonZeroValues(n)
    ensures forall m :: m in Evaluated(n, depth) ==> NonZeroValues(m)
    decreases n
  {
    if !Stops(n, depth) {
      EvaluatedScanNonZero(n, depth, |n.children|);
    }
  }

  lemma {:induction false} EvaluatedScanNonZero(n: Node, depth: int, k: nat)
    requires NonZeroValues(n) && k <= |n.children|
    ensures forall m :: m in EvaluatedScan(n, depth, k) ==> NonZeroValues(m)
    decreases n, k
  {
    if k > 0 {
      EvaluatedScanNonZero(n, depth, k - 1);
      EvaluatedNonZero(n.children[k - 1].child, depth - 1);
    }
  }

  /** The value the search returns is the heuristic score of one of the
      nodes it scored. */
  lemma {:induction false} MinimaxValueIsScored(n: Node, depth: int, isMaximizing: bool)
    requires NonZeroValues(n)
    ensures exists m :: m in Evaluated(n, depth) && NonZeroValues(m)
                     && Minimax(n, depth, isMaximizing).value == Fin(Heuristic(m))
    decreases n
  {
    EvaluatedNonZero(n, depth);
    if Stops(n, depth) {
      assert n in Evaluated(n, depth);
    } else {
      MinimaxChoosesFirstBest(n, depth, isMaximizing);
      var r := Minimax(n, depth, isMaximizing);
      var i :| 0 <= i < |n.children| && r.value == ChildValue(n, depth, isMaximizing, i);
      var c := n.children[i].child;
      MinimaxValueIsScored(c, depth - 1, !isMaximizing);
      var m :| m in Evaluated(c, depth - 1) && NonZeroValues(m)
               && Minimax(c, depth - 1, !isMaximizing).value == Fin(Heuristic(m));
      EvaluatedScanContains(n, depth, i + 1, |n.children|);
      EvaluatedScanContains(n, depth, i, i + 1);
      assert Evaluated(n, depth) == EvaluatedScan(n, depth, |n.children|);
    }
  }

  /** The nodes scored below the first j children include those scored
      below the first i, for i <= j; in particular those of child i - 1. */
  lemma {:induction false} EvaluatedScanContains(n: Node, depth: int, i: nat, j: nat)
    requires i <= j <= |n.children|
    ensures forall m :: m in EvaluatedScan(n, depth, i) ==> m in EvaluatedScan(n, depth, j)
    ensures i > 0 ==> forall m :: m in Evaluated(n.children[i - 1].child, depth - 1) ==> m in EvaluatedScan(n, depth, j)
    decreases j
  {
    if i < j {
      EvaluatedScanContains(n, depth, i, j - 1);
    }
  }

  /** `_minimax` in game.py: the loop over the children in ascending divisor
      order, a strictly better child value replacing the running best. */
  method SearchMinimax(n: Node, depth: int, isMaximizing: bool) returns (value: ExtReal, move: Option<int>)
    requires NonZeroValues(n)
    ensures SearchResult(value, move) == Minimax(n, depth, isMaximizing)
    decreases n
  {
    if depth == 0 || n.children == [] {
      return Fin(Heuristic(n)), None;
    }
    move := None;
    value := if isMaximizing then NegInf else PosInf;
    for i := 0 to |n.children|
      invariant SearchResult(value, move) == MinimaxScan(n, depth, isMaximizing, i)
    {
      var b := n.children[i];
      var childValue, _ := SearchMinimax(b.child, depth - 1, !isMaximizing);
      if (isMaximizing && Less(value, childValue)) || (!isMaximizing && Less(childValue, value)) {
        value := childValue;
        move := Some(b.divisor);
      }
    }
  }
}
