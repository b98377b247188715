/** `Game.alpha_beta` in game.py: the minimax search with pruning. A
    maximizing node only ever raises alpha and a minimizing node only ever
    lowers beta; the move is recorded with the bound it moved; the loop
    over the children stops once alpha >= beta. A node returns alpha when
    maximizing and beta when minimizing. */
module AlphaBetaSearch {
  import opened ExtendedReals
  import opened GameTrees
  import opened Scoring
  import opened MinimaxSearch

  /** The loop state of `_alpha_beta`: the two bounds, the move recorded so
      far, and whether the loop has broken off. */
  datatype Window = Window(alpha: ExtReal, beta: ExtReal, move: Option<int>, cut: bool)

  /** `_alpha_beta` in game.py, as a value. */
  function AlphaBeta(n: Node, alpha: ExtReal, beta: ExtReal, depth: int, isMaximizing: bool): (r: SearchResult)
    requires NonZeroValues(n)
    ensures Stops(n, depth) ==> r.move.None? && r.value.Fin?
    ensures !Stops(n, depth) && isMaximizing ==> LessEq(alpha, r.value)
    ensures !Stops(n, depth) && !isMaximizing ==> LessEq(r.value, beta)
    decreases n
  {
    if Stops(n, depth) then SearchResult(Fin(Heuristic(n)), None)
    else
      var w := AlphaBetaScan(n, alpha, beta, depth, isMaximizing, |n.children|);
      SearchResult(if isMaximizing then w.alpha else w.beta, w.move)
  }

  /** The loop state once `_alpha_beta` has looked at the first k children
      (or fewer, when it broke off). Each child is searched with the bounds
      as they stand when the loop reaches it. */
  function AlphaBetaScan(n: Node, alpha: ExtReal, beta: ExtReal, depth: int, isMaximizing: bool, k: nat): (w: Window)
    requires NonZeroValues(n) && k <= |n.children|
    ensures isMaximizing ==> w.beta == beta && LessEq(alpha, w.alpha)
    ensures !isMaximizing ==> w.alpha == alpha && LessEq(w.beta, beta)
    ensures w.move.Some? ==> k > 0
    decreases n, k
  {
    if k == 0 then Window(alpha, beta, None, false)
    else
      var w := AlphaBetaScan(n, alpha, beta, depth, isMaximizing, k - 1);
      if w.cut then w
      else
        var b := n.children[k - 1];
        var v := AlphaBeta(b.child, w.alpha, w.beta, depth - 1, !isMaximizing).value;
        var next :=
          if isMaximizing then
            (if Less(w.alpha, v) then w.(alpha := v, move := Some(b.divisor)) else w)
          else
            (if Less(v, w.beta) then w.(beta := v, move := Some(b.divisor)) else w);
        LessEqTransitive(alpha, w.alpha, next.alpha);
        LessEqTransitive(next.beta, w.beta, beta);
        next.(cut := !Less(next.alpha, next.beta))
  }

  /** Once the loop has broken off, the remaining children change nothing. */
  lemma {:induction false} CutPersists(n: Node, alpha: ExtReal, beta: ExtReal, depth: int, isMaximizing: bool, i: nat, k: nat)
    requires NonZeroValues(n) && i <= k <= |n.children|
    requires AlphaBetaScan(n, alpha, beta, depth, isMaximizing, i).cut
    ensures AlphaBetaScan(n, alpha, beta, depth, isMaximizing, k) == AlphaBetaScan(n, alpha, beta, depth, isMaximizing, i)
    decreases k
  {
    if i < k {
      CutPersists(n, alpha, beta, depth, isMaximizing, i, k - 1);
    }
  }

  /** The classic correctness of alpha-beta with these fail-hard bounds:
      searched with a window alpha < beta, the result equals the minimax
      value when that value lies strictly inside the window, is at most
      alpha when the minimax value is, and at least beta when the minimax
      value is. */
  lemma {:induction false} AlphaBetaBounds(n: Node, alpha: ExtReal, beta: ExtReal, depth: int, isMaximizing: bool)
    requires NonZeroValues(n) && Less(alpha, beta)
    ensures var v := Minimax(n, depth, isMaximizing).value;
            var r := AlphaBeta(n, alpha, beta, depth, isMaximizing).value;
      && (LessEq(v, alpha) ==> LessEq(r, alpha))
      && (LessEq(beta, v) ==> LessEq(beta, r))
      && (Less(alpha, v) && Less(v, beta) ==> r == v)
    decreases n, 1
  {
    if !Stops(n, depth) {
      var k := |n.children|;
      var v := MinimaxScan(n, depth, isMaximizing, k).value;
      var w := AlphaBetaScan(n, alpha, beta, depth, isMaximizing, k);
      if isMaximizing {
        MaxScanInvariant(n, alpha, beta, depth, k);
        if !w.cut {
          if LessEq(beta, v) {
            LessEqTransitive(beta, v, Max(alpha, v));
          }
        } else {
          if LessEq(v, alpha) {
            LessEqTransitive(beta, v, alpha);
          }
          if Less(v, beta) {
            LessIrreflexive(v);
          }
        }
      } else {
        MinScanInvariant(n, alpha, beta, depth, k);
        if !w.cut {
          if LessEq(v, alpha) {
            LessEqTransitive(Min(beta, v), v, alpha);
          }
        } else {
          if LessEq(beta, v) {
            LessEqTransitive(beta, v, alpha);
          }
          if Less(alpha, v) {
            LessIrreflexive(v);
          }
        }
      }
    }
  }

  /** At a maximizing node: until the loop breaks off, alpha is the larger
      of its start value and the best child value so far, and still below
      beta; once it breaks off, both alpha and that best value reach beta. */
  lemma {:induction false} MaxScanInvariant(n: Node, alpha: ExtReal, beta: ExtReal, depth: int, k: nat)
    requires NonZeroValues(n) && Less(alpha, beta) && k <= |n.children|
    ensures var w := AlphaBetaScan(n, alpha, beta, depth, true, k);
            var m := MinimaxScan(n, depth, true, k).value;
      && (!w.cut ==> w.alpha == Max(alpha, m) && Less(w.alpha, beta))
      && (w.cut ==> LessEq(beta, w.alpha) && LessEq(beta, m))
    decreases n, 0, k
  {
    if k > 0 {
      MaxScanInvariant(n, alpha, beta, depth, k - 1);
      var w := AlphaBetaScan(n, alpha, beta, depth, true, k - 1);
      var m := MinimaxScan(n, depth, true, k - 1).value;
      var c := n.children[k - 1].child;
      var v := Minimax(c, depth - 1, false).value;
      assert MinimaxScan(n, depth, true, k).value == Max(m, v);
      if w.cut {
        LessEqTransitive(beta, m, Max(m, v));
      } else {
        var a := w.alpha;
        AlphaBetaBounds(c, a, beta, depth - 1, false);
        var r := AlphaBeta(c, a, beta, depth - 1, false).value;
        if LessEq(v, a) {
          MaxAbsorbs(alpha, m, v);
        } else if Less(v, beta) {
          MaxRaises(alpha, m, v);
        } else {
          LessTotal(v, beta);
          LessEqTransitive(beta, v, Max(m, v));
          LessEqTransitive(beta, r, r);
          LessTotal(a, r);
          if LessEq(r, a) {
            LessEqTransitive(beta, r, a);
          }
        }
      }
    }
  }

  /** At a minimizing node, the mirror image of MaxScanInvariant for beta. */
  lemma {:induction false} MinScanInvariant(n: Node, alpha: ExtReal, beta: ExtReal, depth: int, k: nat)
    requires NonZeroValues(n) && Less(alpha, beta) && k <= |n.children|
    ensures var w := AlphaBetaScan(n, alpha, beta, depth, false, k);
            var m := MinimaxScan(n, depth, false, k).value;
      && (!w.cut ==> w.beta == Min(beta, m) && Less(alpha, w.beta))
      && (w.cut ==> LessEq(w.beta, alpha) && LessEq(m, alpha))
    decreases n, 0, k
  {
    if k > 0 {
      MinScanInvariant(n, alpha, beta, depth, k - 1);
      var w := AlphaBetaScan(n, alpha, beta, depth, false, k - 1);
      var m := MinimaxScan(n, depth, false, k - 1).value;
      var c := n.children[k - 1].child;
      var v := Minimax(c, depth - 1, true).value;
      assert MinimaxScan(n, depth, false, k).value == Min(m, v);
      if w.cut {
        LessEqTransitive(Min(m, v), m, alpha);
      } else {
        var b := w.beta;
        AlphaBetaBounds(c, alpha, b, depth - 1, true);
        var r := AlphaBeta(c, alpha, b, depth - 1, true).value;
        if LessEq(b, v) {
          MinAbsorbs(beta, m, v);
        } else if Less(alpha, v) {
          MinRaises(beta, m, v);
        } else {
          LessTotal(v, alpha);
          LessEqTransitive(Min(m, v), v, alpha);
          LessTotal(r, b);
          if LessEq(b, r) {
            LessEqTransitive(b, r, alpha);
          }
        }
      }
    }
  }

  lemma MaxAbsorbs(alpha: ExtReal, m: ExtReal, v: ExtReal)
    requires LessEq(v, Max(alpha, m))
    ensures Max(alpha, Max(m, v)) == Max(alpha, m)
  {
  }

  lemma MaxRaises(alpha: ExtReal, m: ExtReal, v: ExtReal)
    requires Less(Max(alpha, m), v)
    ensures Max(alpha, Max(m, v)) == v
  {
  }

  lemma MinAbsorbs(beta: ExtReal, m: ExtReal, v: ExtReal)
    requires LessEq(Min(beta, m), v)
    ensures Min(beta, Min(m, v)) == Min(beta, m)
  {
  }

  lemma MinRaises(beta: ExtReal, m: ExtReal, v: ExtReal)
    requires Less(v, Min(beta, m))
    ensures Min(beta, Min(m, v)) == v
  {
  }

  /** Started from (-inf, +inf), the loop at the root follows the minimax
      loop step for step: the moving bound is the running best value, the
      recorded move is the same, and the loop never breaks off. */
  lemma {:induction false} RootScanAgrees(n: Node, depth: int, isMaximizing: bool, k: nat)
    requires NonZeroValues(n) && k <= |n.children|
    ensures var w := AlphaBetaScan(n, NegInf, PosInf, depth, isMaximizing, k);
            var m := MinimaxScan(n, depth, isMaximizing, k);
      && !w.cut && w.move == m.move
      && (if isMaximizing then w.alpha == m.value else w.beta == m.value)
    decreases k
  {
    if k > 0 {
      RootScanAgrees(n, depth, isMaximizing, k - 1);
      var w := AlphaBetaScan(n, NegInf, PosInf, depth, isMaximizing, k - 1);
      var m := MinimaxScan(n, depth, isMaximizing, k - 1).value;
      var c := n.children[k - 1].child;
      var v := Minimax(c, depth - 1, !isMaximizing).value;
      AlphaBetaBounds(c, w.alpha, w.beta, depth - 1, !isMaximizing);
      LessTotal(m, v);
    }
  }

  /** Alpha-beta from (-inf, +inf) and minimax give the same value and the
      same move on every tree, so the AI may use either. */
  lemma AlphaBetaAgreesWithMinimax(n: Node, depth: int, isMaximizing: bool)
    requires NonZeroValues(n)
    ensures AlphaBeta(n, NegInf, PosInf, depth, isMaximizing) == Minimax(n, depth, isMaximizing)
  {
    if !Stops(n, depth) {
      RootScanAgrees(n, depth, isMaximizing, |n.children|);
    }
  }

  /** The nodes alpha-beta scores with the heuristic, left to right: the
      children after a break-off are never searched. */
  function ABEvaluated(n: Node, alpha: ExtReal, beta: ExtReal, depth: int, isMaximizing: bool): (nodes: seq<Node>)
    requires NonZeroValues(n)
    ensures |nodes| >= 1
    decreases n
  {
    if Stops(n, depth) then [n] else ABEvaluatedScan(n, alpha, beta, depth, isMaximizing, |n.children|)
  }

  function ABEvaluatedScan(n: Node, alpha: ExtReal, beta: ExtReal, depth: int, isMaximizing: bool, k: nat): (nodes: seq<Node>)
    requires NonZeroValues(n) && k <= |n.children|
    ensures k > 0 ==> |nodes| >= 1
    decreases n, k
  {
    if k == 0 then []
    else
      var w := AlphaBetaScan(n, alpha, beta, depth, isMaximizing, k - 1);
      var before := ABEvaluatedScan(n, alpha, beta, depth, isMaximizing, k - 1);
      if w.cut then before
      else before + ABEvaluated(n.children[k - 1].child, w.alpha, w.beta, depth - 1, !isMaximizing)
  }

  /** On a tree built with the same depth the search runs with, alpha-beta
      too scores only nodes without children, whatever its window. */
  lemma {:induction false} ABScoresOnlyChildless(n: Node, alpha: ExtReal, beta: ExtReal, depth: int, isMaximizing: bool)
    requires WellFormed(n, depth) && NonZeroValues(n)
    ensures forall m :: m in ABEvaluated(n, alpha, beta, depth, isMaximizing) ==> m.children == []
    decreases n
  {
    if !Stops(n, depth) {
      ABScanScoresOnlyChildless(n, alpha, beta, depth, isMaximizing, |n.children|);
    }
  }

  lemma {:induction false} ABScanScoresOnlyChildless(n: Node, alpha: ExtReal, beta: ExtReal, depth: int, isMaximizing: bool, k: nat)
    requires WellFormed(n, depth) && NonZeroValues(n) && k <= |n.children|
    ensures forall m :: m in ABEvaluatedScan(n, alpha, beta, depth, isMaximizing, k) ==> m.children == []
    decreases n, k
  {
    if k > 0 {
      ABScanScoresOnlyChildless(n, alpha, beta, depth, isMaximizing, k - 1);
      var w := AlphaBetaScan(n, alpha, beta, depth, isMaximizing, k - 1);
      if !w.cut {
        ABScoresOnlyChildless(n.children[k - 1].child, w.alpha, w.beta, depth - 1, !isMaximizing);
      }
    }
  }

  /** Pruning only leaves nodes out: every node alpha-beta scores is one
      that minimax scores too. */
  lemma {:induction false} ABScoresWhatMinimaxScores(n: Node, alpha: ExtReal, beta: ExtReal, depth: int, isMaximizing: bool)
    requires NonZeroValues(n)
    ensures forall m :: m in ABEvaluated(n, alpha, beta, depth, isMaximizing) ==> m in Evaluated(n, depth)
    decreases n
  {
    if !Stops(n, depth) {
      ABScanScoresWhatMinimaxScores(n, alpha, beta, depth, isMaximizing, |n.children|);
    }
  }

  lemma {:induction false} ABScanScoresWhatMinimaxScores(n: Node, alpha: ExtReal, beta: ExtReal, depth: int, isMaximizing: bool, k: nat)
    requires NonZeroValues(n) && k <= |n.children|
    ensures forall m :: m in ABEvaluatedScan(n, alpha, beta, depth, isMaximizing, k) ==> m in EvaluatedScan(n, depth, k)
    decreases n, k
  {
    if k > 0 {
      ABScanScoresWhatMinimaxScores(n, alpha, beta, depth, isMaximizing, k - 1);
      EvaluatedScanContains(n, depth, k - 1, k);
      EvaluatedScanContains(n, depth, k, k);
      var w := AlphaBetaScan(n, alpha, beta, depth, isMaximizing, k - 1);
      if !w.cut {
        ABScoresWhatMinimaxScores(n.children[k - 1].child, w.alpha, w.beta, depth - 1, !isMaximizing);
      }
    }
  }

  /** `_alpha_beta` in game.py: the loop over the children in ascending
      divisor order, moving one bound and breaking off once alpha >= beta. */
  method SearchAlphaBeta(n: Node, alpha0: ExtReal, beta0: ExtReal, depth: int, isMaximizing: bool)
    returns (value: ExtReal, move: Option<int>)
    requires NonZeroValues(n)
    ensures SearchResult(value, move) == AlphaBeta(n, alpha0, beta0, depth, isMaximizing)
    decreases n
  {
    if depth == 0 || n.children == [] {
      return Fin(Heuristic(n)), None;
    }
    var alpha, beta := alpha0, beta0;
    move := None;
    for i := 0 to |n.children|
      invariant AlphaBetaScan(n, alpha0, beta0, depth, isMaximizing, i) == Window(alpha, beta, move, false)
    {
      var b := n.children[i];
      var childValue, _ := SearchAlphaBeta(b.child, alpha, beta, depth - 1, !isMaximizing);
      if isMaximizing {
        if Less(alpha, childValue) {
          alpha := childValue;
          move := Some(b.divisor);
        }
      } else {
        if Less(childValue, beta) {
          beta := childValue;
          move := Some(b.divisor);
        }
      }
      if !Less(alpha, beta) {
        CutPersists(n, alpha0, beta0, depth, isMaximizing, i + 1, |n.children|);
        break;
      }
    }
    value := if isMaximizing then alpha else beta;
  }
}
