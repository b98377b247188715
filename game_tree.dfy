/** The game tree that the AI searches (`GameTreeNode` and `Game.game_tree`
    in game.py): every state reachable from the live game within a depth
    budget, each node expanded by the three divisors in ascending order. */
module GameTrees {
  import opened Rules

  /** A hypothetical position. `isPlayer` says whose move it is AT this
      node: the scores of that side change on the way to its children.
      `children` lists the moves in the order they were inserted into the
      dictionary of game.py; it is empty exactly where game.py leaves
      `children` as None (an expanded node always gets all three moves). */
  datatype Node = Node(value: int, playerScore: int, aiBotScore: int, isPlayer: bool, bank: int,
                       children: seq<Branch>)

  /** One entry of the children dictionary: the divisor and the node it
      leads to. */
  datatype Branch = Branch(divisor: int, child: Node)

  function StateOf(n: Node): State
  {
    State(n.value, n.playerScore, n.aiBotScore, n.bank)
  }

  function Leaf(s: State, isPlayer: bool): Node
  {
    Node(s.number, s.playerPoints, s.aiBotPoints, isPlayer, s.bank, [])
  }

  /** The expansion rule of one node: the game is on at it, and its
      children are the moves by 2, 3 and 4, in this order, each played by
      the side to move, after which the other side is to move. */
  predicate Expanded(n: Node)
  {
    && |n.children| == 3
    && Active(StateOf(n))
    && forall i :: 0 <= i < 3 ==>
         && n.children[i].divisor == i + 2
         && StateOf(n.children[i].child) == Apply(StateOf(n), n.isPlayer, i + 2)
         && n.children[i].child.isPlayer == !n.isPlayer
  }

  /** A tree as game_tree builds it with `depth` levels still to expand:
      a node is a leaf exactly when the budget is spent or the game is
      over at it, every other node follows the expansion rule, and its
      children were built with one level less. */
  predicate WellFormed(n: Node, depth: int)
    decreases n
  {
    && (n.children == [] <==> depth == 0 || n.value <= Threshold)
    && (n.children != [] ==> Expanded(n))
    && forall i :: 0 <= i < |n.children| ==> WellFormed(n.children[i].child, depth - 1)
  }

  /** `_subtree` in game.py, as a value. The recursion ends for every
      depth, negative ones included: while the game is on, every move makes
      the number smaller. */
  function Tree(s: State, isPlayer: bool, depth: int): (t: Node)
    decreases s.number
    ensures StateOf(t) == s && t.isPlayer == isPlayer
    ensures t.children == [] <==> depth == 0 || s.number <= Threshold
    ensures t.children != [] ==> Expanded(t)
    ensures s.number != 0 ==> NonZeroValues(t)
  {
    if depth == 0 || s.number <= Threshold then Leaf(s, isPlayer)
    else
      Node(s.number, s.playerPoints, s.aiBotPoints, isPlayer, s.bank,
           [Branch(2, Tree(Apply(s, isPlayer, 2), !isPlayer, depth - 1)),
            Branch(3, Tree(Apply(s, isPlayer, 3), !isPlayer, depth - 1)),
            Branch(4, Tree(Apply(s, isPlayer, 4), !isPlayer, depth - 1))])
  }

  /** The whole generated tree obeys the expansion rule at every node. */
  lemma {:induction false} TreeWellFormed(s: State, isPlayer: bool, depth: int)
    ensures WellFormed(Tree(s, isPlayer, depth), depth)
    decreases s.number
  {
    var t := Tree(s, isPlayer, depth);
    if t.children != [] {
      forall i | 0 <= i < 3
        ensures WellFormed(t.children[i].child, depth - 1)
      {
        TreeWellFormed(Apply(s, isPlayer, i + 2), !isPlayer, depth - 1);
      }
    }
  }

  /** Every child of an expanded node holds a number of at least 2 that
      is strictly smaller than its parent's; its bank grows by one exactly
      when that number is a multiple of 5; only the mover's score moves,
      by +1 for an odd number and -1 for an even one. */
  lemma ExpandedChildren(n: Node, i: int)
    requires Expanded(n) && 0 <= i < 3
    ensures var c := n.children[i].child;
      && c.value == n.value / (i + 2)
      && 2 <= c.value < n.value
      && c.bank == n.bank + (if c.value % 5 == 0 then 1 else 0)
      && (if n.isPlayer then c.aiBotScore == n.aiBotScore else c.playerScore == n.playerScore)
      && (if n.isPlayer then c.playerScore - n.playerScore else c.aiBotScore - n.aiBotScore)
         == (if c.value % 2 == 1 then 1 else -1)
  {
    var c := n.children[i].child;
    assert StateOf(c) == Apply(StateOf(n), n.isPlayer, i + 2);
  }

  /** No node of a tree holds the number 0 (the heuristic divides by it).
      A tree grown from a non-zero number never reaches 0: an expanded node
      holds more than 10, so each of its children holds at least 2. */
  predicate NonZeroValues(n: Node)
    decreases n
  {
    n.value != 0 && forall i :: 0 <= i < |n.children| ==> NonZeroValues(n.children[i].child)
  }

  /** The number of nodes of a tree. */
  function Size(n: Node): nat
    decreases n
  {
    1 + ChildrenSize(n, |n.children|)
  }

  /** The number of nodes under the first k children. */
  function ChildrenSize(n: Node, k: nat): nat
    requires k <= |n.children|
    decreases n, k
  {
    if k == 0 then 0 else ChildrenSize(n, k - 1) + Size(n.children[k - 1].child)
  }

  /** `_subtree` in game.py: builds the node for the state, expands it by
      the three divisors in a loop and counts the nodes it created. */
  method BuildSubtree(s: State, isPlayer: bool, depth: int) returns (node: Node, nodeCount: int)
    ensures node == Tree(s, isPlayer, depth)
    ensures nodeCount == Size(node)
    decreases s.number
  {
    node := Leaf(s, isPlayer);
    nodeCount := 1;
    if depth == 0 || s.number <= Threshold {
      return;
    }
    ghost var t := Tree(s, isPlayer, depth);
    var children: seq<Branch> := [];
    for d := 2 to 5
      invariant children == t.children[..d - 2]
      invariant nodeCount == 1 + ChildrenSize(t, d - 2)
    {
      var newNumber := s.number / d;
      var scoreChange := if newNumber % 2 == 0 then -1 else 1;
      var newPlayer := s.playerPoints + (if isPlayer then scoreChange else 0);
      var newAiBot := s.aiBotPoints + (if isPlayer then 0 else scoreChange);
      var newBank := s.bank + (if newNumber % 5 == 0 then 1 else 0);
      var childState := State(newNumber, newPlayer, newAiBot, newBank);
      assert childState == Apply(s, isPlayer, d);
      var child, childCount := BuildSubtree(childState, !isPlayer, depth - 1);
      nodeCount := nodeCount + childCount;
      children := children + [Branch(d, child)];
    }
    node := node.(children := children);
  }

  function Pow3(k: nat): (p: nat)
    ensures p >= 1
  {
    if k == 0 then 1 else 3 * Pow3(k - 1)
  }

  /** No position within `depth` moves of `number`, other than those at
      exactly `depth` moves, ends the game: every path of the tree runs the
      whole depth. */
  predicate Full(number: int, depth: nat)
  {
    depth == 0 ||
    (number > Threshold && Full(number / 2, depth - 1) && Full(number / 3, depth - 1) && Full(number / 4, depth - 1))
  }

  /** The node count of a tree of depth k is at most (3^(k+1) - 1) / 2, and
      reaches it exactly when no path stops early at a finished game. */
  lemma {:induction false} NodeCountBound(s: State, isPlayer: bool, depth: nat)
    ensures 2 * Size(Tree(s, isPlayer, depth)) + 1 <= Pow3(depth + 1)
    ensures 2 * Size(Tree(s, isPlayer, depth)) + 1 == Pow3(depth + 1) <==> Full(s.number, depth)
    decreases depth
  {
    var t := Tree(s, isPlayer, depth);
    if depth == 0 {
      assert Size(t) == 1;
    } else if s.number <= Threshold {
      assert Size(t) == 1;
      assert Pow3(depth + 1) == 9 * Pow3(depth - 1);
      assert !Full(s.number, depth);
    } else {
      forall d | 2 <= d <= 4
        ensures var c := t.children[d - 2].child;
          && (2 * Size(c) + 1 <= Pow3(depth))
          && (2 * Size(c) + 1 == Pow3(depth) <==> Full(s.number / d, depth - 1))
      {
        TreeChild(s, isPlayer, depth, d);
        NodeCountBound(Apply(s, isPlayer, d), !isPlayer, depth - 1);
      }
      SizeOfExpanded(t);
      ThreeSubtrees(Size(t.children[0].child), Size(t.children[1].child), Size(t.children[2].child), Pow3(depth));
    }
  }

  lemma TreeChild(s: State, isPlayer: bool, depth: int, d: int)
    requires depth != 0 && s.number > Threshold && 2 <= d <= 4
    ensures |Tree(s, isPlayer, depth).children| == 3
    ensures Tree(s, isPlayer, depth).children[d - 2].child == Tree(Apply(s, isPlayer, d), !isPlayer, depth - 1)
    ensures Apply(s, isPlayer, d).number == s.number / d
  {
  }

  lemma SizeOfExpanded(n: Node)
    requires |n.children| == 3
    ensures Size(n) == 1 + Size(n.children[0].child) + Size(n.children[1].child) + Size(n.children[2].child)
  {
    assert ChildrenSize(n, 1) == Size(n.children[0].child);
    assert ChildrenSize(n, 2) == ChildrenSize(n, 1) + Size(n.children[1].child);
  }

  /** A node with three subtrees, each within a bound p, is within 3 * p,
      with equality exactly when all three reach it. */
  lemma ThreeSubtrees(a: int, b: int, c: int, p: int)
    requires 2 * a + 1 <= p && 2 * b + 1 <= p && 2 * c + 1 <= p
    ensures 2 * (1 + a + b + c) + 1 <= 3 * p
    ensures 2 * (1 + a + b + c) + 1 == 3 * p <==> 2 * a + 1 == p && 2 * b + 1 == p && 2 * c + 1 == p
  {
  }
}
