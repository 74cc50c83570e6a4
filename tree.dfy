/**
 * The binary tree produced by the OBST reconstruction (Tree.h).
 * A node is a label with two owned children; the single-owner pointer
 * structure of Tree.h's TreeNode becomes an algebraic datatype, so a deep copy
 * is structural equality and teardown is left to the garbage collector.
 */
module Trees {

  datatype TreeNode = Nil | Node(left: TreeNode, key: string, right: TreeNode)

  /** 2^n, used for the node-count bound of a tree of a given height. */
  function Pow2(n: nat): (r: nat)
    ensures r >= 1
  {
    if n == 0 then 1 else 2 * Pow2(n - 1)
  }

  lemma {:induction false} Pow2Monotone(a: nat, b: nat)
    requires a <= b
    ensures Pow2(a) <= Pow2(b)
  {
    if a < b {
      Pow2Monotone(a, b - 1);
    }
  }

  /** In-order key sequence: left subtree, node, right subtree. */
  function InOrder(t: TreeNode): seq<string>
  {
    match t
    case Nil => []
    case Node(l, k, r) => InOrder(l) + [k] + InOrder(r)
  }

  /** computeHeight: the number of nodes on the longest root-to-leaf path. */
  function Height(t: TreeNode): (h: nat)
    ensures h == 0 <==> t == Nil
  {
    match t
    case Nil => 0
    case Node(l, _, r) =>
      var hl := Height(l);
      var hr := Height(r);
      1 + (if hl > hr then hl else hr)
  }

  /** countNodes: one per node. */
  function CountNodes(t: TreeNode): nat
  {
    match t
    case Nil => 0
    case Node(l, _, r) => 1 + CountNodes(l) + CountNodes(r)
  }

  /** Counting the nodes gives the length of the in-order walk. */
  lemma {:induction false} CountNodesIsInOrderLength(t: TreeNode)
    ensures CountNodes(t) == |InOrder(t)|
  {
    match t
    case Nil =>
    case Node(l, _, r) =>
      CountNodesIsInOrderLength(l);
      CountNodesIsInOrderLength(r);
  }

  /** countLeafNodes: nodes with no children. */
  function CountLeafNodes(t: TreeNode): (c: nat)
    ensures c <= CountNodes(t)
    ensures t != Nil ==> c >= 1
  {
    match t
    case Nil => 0
    case Node(Nil, _, Nil) => 1
    case Node(l, _, r) => CountLeafNodes(l) + CountLeafNodes(r)
  }

  /** sumOfDepths(node, depth): the node counts `depth`, its children `depth + 1`. */
  function SumOfDepths(t: TreeNode, depth: int): int
  {
    match t
    case Nil => 0
    case Node(l, _, r) => depth + SumOfDepths(l, depth + 1) + SumOfDepths(r, depth + 1)
  }

  /** copySubtree: a fresh node for every node, same shape and keys. */
  function CopySubtree(t: TreeNode): (c: TreeNode)
    ensures c == t
  {
    match t
    case Nil => Nil
    case Node(l, k, r) => Node(CopySubtree(l), k, CopySubtree(r))
  }

  /**
   * displayTreeHelper modelled as the sequence of (depth, key) lines it
   * prints: right subtree first, then the node, then the left subtree.
   */
  function DisplayTreeHelper(t: TreeNode, depth: int): seq<(int, string)>
  {
    match t
    case Nil => []
    case Node(l, k, r) => DisplayTreeHelper(r, depth + 1) + [(depth, k)] + DisplayTreeHelper(l, depth + 1)
  }

  function Keys(lines: seq<(int, string)>): (ks: seq<string>)
    ensures |ks| == |lines|
  {
    if lines == [] then [] else [lines[0].1] + Keys(lines[1..])
  }

  function Reverse<T>(s: seq<T>): (r: seq<T>)
    ensures |r| == |s|
  {
    if s == [] then [] else Reverse(s[1..]) + [s[0]]
  }

  lemma {:induction false} KeysAppend(a: seq<(int, string)>, b: seq<(int, string)>)
    ensures Keys(a + b) == Keys(a) + Keys(b)
  {
    if a == [] {
      assert a + b == b;
    } else {
      assert (a + b)[1..] == a[1..] + b;
      KeysAppend(a[1..], b);
    }
  }

  lemma {:induction false} ReverseAppend<T>(a: seq<T>, b: seq<T>)
    ensures Reverse(a + b) == Reverse(b) + Reverse(a)
  {
    if a == [] {
      assert a + b == b;
    } else {
      assert (a + b)[1..] == a[1..] + b;
      ReverseAppend(a[1..], b);
    }
  }

  /** The printed keys read the in-order sequence backwards. */
  lemma {:induction false} DisplayIsReversedInOrder(t: TreeNode, depth: int)
    ensures Keys(DisplayTreeHelper(t, depth)) == Reverse(InOrder(t))
    ensures |DisplayTreeHelper(t, depth)| == CountNodes(t)
  {
    match t
    case Nil =>
    case Node(l, k, r) =>
      DisplayIsReversedInOrder(l, depth + 1);
      DisplayIsReversedInOrder(r, depth + 1);
      var dr, dl := DisplayTreeHelper(r, depth + 1), DisplayTreeHelper(l, depth + 1);
      KeysAppend(dr + [(depth, k)], dl);
      KeysAppend(dr, [(depth, k)]);
      ReverseAppend(InOrder(l) + [k], InOrder(r));
      ReverseAppend(InOrder(l), [k]);
      assert Keys([(depth, k)]) == [k];
      assert Reverse([k]) == [k];
  }

  /** Every printed line is at least as deep as the call's starting depth. */
  lemma {:induction false} DisplayDepthsAtLeast(t: TreeNode, depth: int)
    ensures forall i :: 0 <= i < |DisplayTreeHelper(t, depth)| ==> DisplayTreeHelper(t, depth)[i].0 >= depth
  {
    match t
    case Nil =>
    case Node(l, k, r) =>
      DisplayDepthsAtLeast(l, depth + 1);
      DisplayDepthsAtLeast(r, depth + 1);
  }

  /** height <= countNodes <= 2^height - 1. */
  lemma {:induction false} HeightBounds(t: TreeNode)
    ensures Height(t) <= CountNodes(t) <= Pow2(Height(t)) - 1
  {
    match t
    case Nil =>
    case Node(l, _, r) =>
      HeightBounds(l);
      HeightBounds(r);
      var h := Height(t);
      Pow2Monotone(Height(l), h - 1);
      Pow2Monotone(Height(r), h - 1);
      HeightStep(h, Height(l), Height(r), CountNodes(l), CountNodes(r), Pow2(Height(l)), Pow2(Height(r)), Pow2(h - 1));
  }

  /** The arithmetic of one step of HeightBounds, on plain integers. */
  lemma HeightStep(h: nat, hl: nat, hr: nat, cl: nat, cr: nat, pl: nat, pr: nat, p: nat)
    requires h == 1 + (if hl > hr then hl else hr)
    requires hl <= cl <= pl - 1 && hr <= cr <= pr - 1 && pl <= p && pr <= p
    ensures h <= 1 + cl + cr <= 2 * p - 1
  {
  }

  /** Starting one level deeper adds one for every node. */
  lemma {:induction false} SumOfDepthsShift(t: TreeNode, depth: int)
    ensures SumOfDepths(t, depth + 1) == SumOfDepths(t, depth) + CountNodes(t)
  {
    match t
    case Nil =>
    case Node(l, _, r) =>
      SumOfDepthsShift(l, depth + 1);
      SumOfDepthsShift(r, depth + 1);
  }

  lemma MulMonotone(a: nat, x: int, y: int)
    requires x <= y
    ensures a * x <= a * y
  {
  }

  /** The arithmetic of one step of SumOfDepthsBound, on plain integers. */
  lemma DepthBoundStep(d: int, m: int, cl: nat, cr: nat, sl: int, sr: int, hl: nat, hr: nat)
    requires sl <= cl * (d + hl) && sr <= cr * (d + hr)
    requires d + hl <= m && d + hr <= m && d <= m
    ensures d + sl + sr <= (1 + cl + cr) * m
  {
    MulMonotone(cl, d + hl, m);
    MulMonotone(cr, d + hr, m);
    assert (1 + cl + cr) * m == m + cl * m + cr * m;
  }

  /** No node lies below the deepest level, so the depth sum is at most count * (depth + height - 1). */
  lemma {:induction false} SumOfDepthsBound(t: TreeNode, depth: int)
    ensures SumOfDepths(t, depth) <= CountNodes(t) * (depth + Height(t) - 1)
  {
    match t
    case Nil =>
    case Node(l, _, r) =>
      SumOfDepthsBound(l, depth + 1);
      SumOfDepthsBound(r, depth + 1);
      DepthBoundStep(depth, depth + Height(t) - 1, CountNodes(l), CountNodes(r),
        SumOfDepths(l, depth + 1), SumOfDepths(r, depth + 1), Height(l), Height(r));
  }

  /** Starting at a non-negative depth, the depth sum is non-negative. */
  lemma {:induction false} SumOfDepthsNonNegative(t: TreeNode, depth: int)
    requires depth >= 0
    ensures SumOfDepths(t, depth) >= 0
  {
    match t
    case Nil =>
    case Node(l, _, r) =>
      SumOfDepthsNonNegative(l, depth + 1);
      SumOfDepthsNonNegative(r, depth + 1);
  }

  /** The quotient s / n that getAverageDepth computes in floating point. */
  function Mean(s: int, n: nat): (r: real)
    requires n > 0
    ensures r * (n as real) == s as real
  {
    (s as real) / (n as real)
  }

  /** A sum of n values, each between 0 and m, has a mean between 0 and m. */
  lemma MeanBounds(s: int, n: nat, m: int)
    requires n > 0 && 0 <= s <= n * m
    ensures 0.0 <= Mean(s, n) <= m as real
  {
    assert (s as real) <= (n as real) * (m as real);
  }

  /** getAverageDepth: 0 for the empty tree, else the mean node depth (root at 0). */
  function AverageDepth(t: TreeNode): (avg: real)
    ensures t == Nil ==> avg == 0.0
    ensures t != Nil ==> avg * (CountNodes(t) as real) == SumOfDepths(t, 0) as real
    ensures 0.0 <= avg
    ensures t != Nil ==> avg <= (Height(t) - 1) as real
  {
    if t == Nil then 0.0
    else
      AverageDepthBounds(t);
      Mean(SumOfDepths(t, 0), CountNodes(t))
  }

  /** The mean node depth of a non-empty tree lies between 0 and height - 1. */
  lemma AverageDepthBounds(t: TreeNode)
    requires t != Nil
    ensures CountNodes(t) > 0
    ensures 0.0 <= Mean(SumOfDepths(t, 0), CountNodes(t)) <= (Height(t) - 1) as real
  {
    SumOfDepthsBound(t, 0);
    SumOfDepthsNonNegative(t, 0);
    MeanBounds(SumOfDepths(t, 0), CountNodes(t), Height(t) - 1);
  }

  /** The tree container: it owns zero or one tree of nodes. */
  class Tree {
    var root: TreeNode

    /** Tree(): an empty tree. */
    constructor ()
      ensures root == Nil
    {
      root := Nil;
    }

    /** Copy constructor: a deep copy of the other tree's nodes. */
    constructor Copy(other: Tree)
      ensures root == other.root
    {
      root := CopySubtree(other.root);
    }

    /** Move constructor: takes the nodes and leaves the source empty. */
    constructor Move(other: Tree)
      modifies other
      ensures root == old(other.root)
      ensures other.IsEmpty()
    {
      root := other.root;
      other.root := Nil;
    }

    /** Copy assignment; assigning a tree to itself changes nothing. */
    method CopyAssign(other: Tree)
      modifies this
      ensures root == old(other.root)
      ensures other.root == old(other.root)
    {
      if this != other {
        root := CopySubtree(other.root);
      }
    }

    /** assign(other): the copy assignment under another name. */
    method Assign(other: Tree)
      modifies this
      ensures root == old(other.root)
      ensures other.root == old(other.root)
    {
      CopyAssign(other);
    }

    /** Move assignment; self-assignment changes nothing. */
    method MoveAssign(other: Tree)
      modifies this, other
      ensures this == other ==> root == old(root)
      ensures this != other ==> root == old(other.root) && other.IsEmpty()
    {
      if this != other {
        root := other.root;
        other.root := Nil;
      }
    }

    method SetRoot(node: TreeNode)
      modifies this
      ensures root == node
    {
      root := node;
    }

    function GetRoot(): TreeNode
      reads this
    {
      root
    }

    /** isEmpty: no root, equivalently no nodes. */
    function IsEmpty(): (b: bool)
      reads this
      ensures b <==> CountNodes(root) == 0
    {
      root == Nil
    }

    /** getHeight, bounded by the node count. */
    function GetHeight(): (h: nat)
      reads this
      ensures h <= CountNodes(root) <= Pow2(h) - 1
    {
      HeightBounds(root);
      Height(root)
    }

    /** getTotalNodes: the length of the in-order walk. */
    function GetTotalNodes(): (n: nat)
      reads this
      ensures n == |InOrder(root)|
    {
      CountNodesIsInOrderLength(root);
      CountNodes(root)
    }

    /** getLeafNodes: at most the node count, at least one for a non-empty tree. */
    function GetLeafNodes(): (n: nat)
      reads this
      ensures n <= CountNodes(root)
      ensures root != Nil ==> n >= 1
    {
      CountLeafNodes(root)
    }

    /** getAverageDepth: 0 when empty, otherwise sumOfDepths(root, 0) / countNodes. */
    function GetAverageDepth(): (avg: real)
      reads this
      ensures avg == AverageDepth(root)
    {
      AverageDepth(root)
    }

    /** displayTree: the (depth, key) lines, keys in reverse in-order. */
    function DisplayTree(): (lines: seq<(int, string)>)
      reads this
      ensures Keys(lines) == Reverse(InOrder(root))
    {
      DisplayIsReversedInOrder(root, 0);
      DisplayTreeHelper(root, 0)
    }
  }
}
