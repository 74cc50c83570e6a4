/**
 * The optimal binary search tree engine: the base cases, the dynamic
 * programme over the cost, weight and root tables, the rebuilding of the
 * tree from the root table, and the entry point that ties them together.
 * Tables are (n + 2) by (n + 2), indexed [i, j] for the key range [i, j].
 */
module Obst {
  import opened ObstSpec
  import opened Trees
  import opened Vectors
  import opened Utils

  /** The three tables of one run, each (n + 2) by (n + 2). */
  predicate Tables(E: array2<real>, W: array2<real>, Root: array2<int>, n: int)
  {
    0 <= n && E != W &&
    E.Length0 == n + 2 && E.Length1 == n + 2 &&
    W.Length0 == n + 2 && W.Length1 == n + 2 &&
    Root.Length0 == n + 2 && Root.Length1 == n + 2
  }

  /** The entries e, w, root of cell [a, b] of the three tables are the weight and the engine's entry. */
  ghost predicate CellOk(e: real, w: real, root: int, x: Probs, rule: BaseRule, a: int, b: int)
  {
    InRange(x, a, b) && w == Weight(x, a, b) && e == Engine(x, rule, a, b).cost &&
    (a <= b ==> root == Engine(x, rule, a, b).root)
  }

  /** Every cell of a range of the n keys, empty ranges included, holds its weight and engine entry. */
  ghost predicate Filled(E: array2<real>, W: array2<real>, Root: array2<int>, x: Probs, rule: BaseRule, n: int)
    reads E, W, Root
    requires Tables(E, W, Root, n)
  {
    forall a, b {:trigger CellOk(E[a, b], W[a, b], Root[a, b], x, rule, a, b)} ::
      1 <= a <= b + 1 <= n + 1 ==> CellOk(E[a, b], W[a, b], Root[a, b], x, rule, a, b)
  }

  /** Range [a, b] is filled before length l, start i: shorter, or as long and further left. */
  predicate Done(l: int, i: int, a: int, b: int)
  {
    b - a + 1 < l || (b - a + 1 == l && a < i)
  }

  /**
   * What the tables hold when the engine is about to fill the range of
   * length l starting at i: every earlier range is filled, and the root
   * of every later range of two or more keys is still 0.
   */
  ghost predicate TablesUpTo(E: array2<real>, W: array2<real>, Root: array2<int>,
                             x: Probs, rule: BaseRule, n: int, l: int, i: int)
    reads E, W, Root
    requires Tables(E, W, Root, n)
  {
    (forall a, b {:trigger CellOk(E[a, b], W[a, b], Root[a, b], x, rule, a, b)} ::
       1 <= a <= b + 1 <= n + 1 && Done(l, i, a, b) ==> CellOk(E[a, b], W[a, b], Root[a, b], x, rule, a, b)) &&
    (forall a, b :: 1 <= a < b <= n && !Done(l, i, a, b) ==> Root[a, b] == 0)
  }

  /**
   * initializeLoop: for every key a, the empty range before it costs and
   * weighs q[a - 1], the range [a, a] weighs q[a - 1] + p[a] + q[a] and has
   * root a; the empty range after the last key costs and weighs q[n]. The
   * cost of [a, a] is its weight under SingleKeyWeight (as in the engine)
   * and q[a - 1] + q[a] + its weight under Uniform.
   */
  method InitializeLoop(E: array2<real>, W: array2<real>, Root: array2<int>, n: int, x: Probs, rule: BaseRule)
    requires x.Valid() && n == x.N() && Tables(E, W, Root, n)
    modifies E, W, Root
    ensures forall a, b :: 1 <= a <= n + 1 && b == a - 1 ==> CellOk(E[a, b], W[a, b], Root[a, b], x, rule, a, b)
    ensures forall a, b :: 1 <= a <= n && b == a ==> CellOk(E[a, b], W[a, b], Root[a, b], x, rule, a, b) && Root[a, b] == a
    ensures forall a, b :: 0 <= a < n + 2 && 0 <= b < n + 2 && a < b ==> Root[a, b] == old(Root[a, b])
  {
    var a := 1;
    while a <= n
      invariant 1 <= a <= n + 1
      invariant forall c, d :: 1 <= c < a && d == c - 1 ==> CellOk(E[c, d], W[c, d], Root[c, d], x, rule, c, d)
      invariant forall c, d :: 1 <= c < a && d == c ==> CellOk(E[c, d], W[c, d], Root[c, d], x, rule, c, d) && Root[c, d] == c
      invariant forall c, d :: 0 <= c < n + 2 && 0 <= d < n + 2 && c < d ==> Root[c, d] == old(Root[c, d])
    {
      W[a, a - 1] := x.q[a - 1];
      E[a, a - 1] := x.q[a - 1];
      Root[a, a] := a;
      W[a, a] := x.q[a - 1] + x.p[a] + x.q[a];
      E[a, a] := if rule == SingleKeyWeight then W[a, a] else x.q[a - 1] + x.q[a] + W[a, a];
      BaseCases(x, rule, a);
      a := a + 1;
    }
    W[n + 1, n] := x.q[n];
    E[n + 1, n] := x.q[n];
  }

  /**
   * The body of computeOBST's middle loop for [i, j] once the search can
   * start: E[i, j] starts at the sentinel, W[i, j] extends W[i, j - 1] by
   * key j, and the root search runs. The cell then holds the weight and
   * the engine's entry of [i, j], and no other cell changes.
   */
  method SearchRoot(E: array2<real>, W: array2<real>, Root: array2<int>, n: int, x: Probs, rule: BaseRule, i: int, j: int)
    requires Tables(E, W, Root, n) && n == x.N() && InRange(x, i, j) && i < j
    requires Root[i, j - 1] == Engine(x, rule, i, j - 1).root != 0 && Root[i + 1, j] == Engine(x, rule, i + 1, j).root
    requires Root[i, j] == 0 && W[i, j - 1] == Weight(x, i, j - 1)
    requires forall a, b :: a == i && Root[i, j - 1] <= b + 1 <= Root[i + 1, j] ==> E[a, b] == Engine(x, rule, a, b).cost
    requires forall a, b :: b == j && Root[i, j - 1] <= a - 1 <= Root[i + 1, j] ==> E[a, b] == Engine(x, rule, a, b).cost
    modifies E, W, Root
    ensures Entry(E[i, j], Root[i, j]) == Engine(x, rule, i, j) && W[i, j] == Weight(x, i, j)
    ensures forall a, b :: 0 <= a < n + 2 && 0 <= b < n + 2 && (a != i || b != j) ==>
              E[a, b] == old(E[a, b]) && W[a, b] == old(W[a, b]) && Root[a, b] == old(Root[a, b])
  {
    E[i, j] := Sentinel;
    W[i, j] := W[i, j - 1] + x.p[j] + x.q[j];
    forall r | Root[i, j - 1] <= r <= Root[i + 1, j]
      ensures E[i, r - 1] + E[r + 1, j] + W[i, j] == EngineCand(x, rule, i, j, r)
    {
      assert E[i, r - 1] == old(E[i, r - 1]) && E[r + 1, j] == old(E[r + 1, j]);
    }
    ScanWindow(E, W, Root, n, x, rule, i, j);
    EngineSearches(x, rule, i, j);
  }

  /**
   * The innermost loop of computeOBST: tries the roots r from Root[i, j - 1]
   * to Root[i + 1, j], keeping in E[i, j] and Root[i, j] the first strictly
   * cheapest candidate E[i, r - 1] + E[r + 1, j] + W[i, j]; that is the
   * engine's scan of the window.
   */
  method ScanWindow(E: array2<real>, W: array2<real>, Root: array2<int>, n: int, x: Probs, rule: BaseRule, i: int, j: int)
    requires Tables(E, W, Root, n) && n == x.N() && InRange(x, i, j) && i < j
    requires i <= Root[i, j - 1] <= j && Root[i + 1, j] <= j
    requires E[i, j] == Sentinel && Root[i, j] == 0
    requires forall r :: Root[i, j - 1] <= r <= Root[i + 1, j] ==> E[i, r - 1] + E[r + 1, j] + W[i, j] == EngineCand(x, rule, i, j, r)
    modifies E, Root
    ensures Entry(E[i, j], Root[i, j]) == EngineScan(x, rule, i, j, old(Root[i, j - 1]), ScanEnd(old(Root[i, j - 1]), old(Root[i + 1, j])))
    ensures forall a, b :: 0 <= a < n + 2 && 0 <= b < n + 2 && (a != i || b != j) ==>
              E[a, b] == old(E[a, b]) && Root[a, b] == old(Root[a, b])
  {
    ghost var lo, hi := Root[i, j - 1], Root[i + 1, j];
    var r := Root[i, j - 1];
    while r <= Root[i + 1, j]
      invariant lo <= r <= ScanEnd(lo, hi)
      invariant Root[i, j - 1] == lo && Root[i + 1, j] == hi
      invariant Entry(E[i, j], Root[i, j]) == EngineScan(x, rule, i, j, lo, r)
      invariant forall a, b :: 0 <= a < n + 2 && 0 <= b < n + 2 && (a != i || b != j) ==>
                  E[a, b] == old(E[a, b]) && Root[a, b] == old(Root[a, b])
    {
      var currCost := E[i, r - 1] + E[r + 1, j] + W[i, j];
      assert currCost == old(E[i, r - 1] + E[r + 1, j] + W[i, j]);
      if currCost < E[i, j] {
        E[i, j] := currCost;
        Root[i, j] := r;
      }
      r := r + 1;
    }
  }

  /**
   * Every range [a, b] that a range filled before length l, start i,
   * started its search from (the range [a, b + 1] one key longer) has a
   * nonzero engine root.
   */
  ghost predicate SearchesFoundUpTo(x: Probs, rule: BaseRule, n: int, l: int, i: int)
    requires x.Valid() && n == x.N()
  {
    forall a, b :: 1 <= a <= b < n && Done(l, i, a, b + 1) ==> Engine(x, rule, a, b).root != 0
  }

  /**
   * One pass of computeOBST's middle loop, for the range [i, i + l - 1]:
   * fails (ok is false) when the root of [i, j - 1] is 0, since the search
   * would then read E[i, -1]; otherwise fills the range and moves on.
   */
  method FillRange(E: array2<real>, W: array2<real>, Root: array2<int>, n: int, x: Probs, rule: BaseRule, l: int, i: int)
    returns (ok: bool)
    requires x.Valid() && n == x.N() && Tables(E, W, Root, n) && 2 <= l && 1 <= i <= n - l + 1
    requires TablesUpTo(E, W, Root, x, rule, n, l, i) && SearchesFoundUpTo(x, rule, n, l, i)
    modifies E, W, Root
    ensures ok <==> Engine(x, rule, i, i + l - 2).root != 0
    ensures ok ==> TablesUpTo(E, W, Root, x, rule, n, l, i + 1) && SearchesFoundUpTo(x, rule, n, l, i + 1)
  {
    var j := i + l - 1;
    WindowReady(E, W, Root, n, x, rule, l, i);
    if Root[i, j - 1] == 0 {
      return false;
    }
    SearchesAdvance(x, rule, n, l, i);
    SearchRoot(E, W, Root, n, x, rule, i, j);
    assert CellOk(E[i, j], W[i, j], Root[i, j], x, rule, i, j);
    forall a, b | 1 <= a <= b + 1 <= n + 1 && Done(l, i + 1, a, b)
      ensures CellOk(E[a, b], W[a, b], Root[a, b], x, rule, a, b)
    {
      if a != i || b != j {
        assert Done(l, i, a, b);
        assert old(CellOk(E[a, b], W[a, b], Root[a, b], x, rule, a, b));
      }
    }
    forall a, b | 1 <= a < b <= n && !Done(l, i + 1, a, b)
      ensures Root[a, b] == 0
    {
      assert !Done(l, i, a, b) && (a != i || b != j);
    }
    return true;
  }

  /**
   * What the tables hold for range [i, j], j = i + l - 1, before it is
   * filled: the roots of the two ranges one key shorter are the engine's,
   * and when the first is not 0, the costs the window search reads are the
   * engine's, and the range is one whose shorter neighbour has a root.
   */
  lemma WindowReady(E: array2<real>, W: array2<real>, Root: array2<int>, n: int, x: Probs, rule: BaseRule, l: int, i: int)
    requires x.Valid() && n == x.N() && Tables(E, W, Root, n) && 2 <= l && 1 <= i <= n - l + 1
    requires TablesUpTo(E, W, Root, x, rule, n, l, i) && SearchesFoundUpTo(x, rule, n, l, i)
    ensures Root[i, i + l - 2] == Engine(x, rule, i, i + l - 2).root
    ensures Root[i + 1, i + l - 1] == Engine(x, rule, i + 1, i + l - 1).root
    ensures Root[i, i + l - 2] == 0 || i <= Root[i, i + l - 2] <= i + l - 1
    ensures Root[i + 1, i + l - 1] <= i + l - 1 && Root[i, i + l - 1] == 0
    ensures W[i, i + l - 2] == Weight(x, i, i + l - 2)
    ensures Root[i, i + l - 2] != 0 ==>
              forall a, b :: a == i && Root[i, i + l - 2] <= b + 1 <= Root[i + 1, i + l - 1] ==> E[a, b] == Engine(x, rule, a, b).cost
    ensures Root[i, i + l - 2] != 0 ==>
              forall a, b :: b == i + l - 1 && Root[i, i + l - 2] <= a - 1 <= Root[i + 1, i + l - 1] ==> E[a, b] == Engine(x, rule, a, b).cost
  {
    var j := i + l - 1;
    assert CellOk(E[i, j - 1], W[i, j - 1], Root[i, j - 1], x, rule, i, j - 1);
    assert CellOk(E[i + 1, j], W[i + 1, j], Root[i + 1, j], x, rule, i + 1, j);
    assert !Done(l, i, i, j);
    if Root[i, j - 1] != 0 {
      forall a, b | a == i && Root[i, j - 1] <= b + 1 <= Root[i + 1, j]
        ensures E[a, b] == Engine(x, rule, a, b).cost
      {
        assert Done(l, i, a, b);
        assert CellOk(E[a, b], W[a, b], Root[a, b], x, rule, a, b);
      }
      forall a, b | b == j && Root[i, j - 1] <= a - 1 <= Root[i + 1, j]
        ensures E[a, b] == Engine(x, rule, a, b).cost
      {
        assert Done(l, i, a, b);
        assert CellOk(E[a, b], W[a, b], Root[a, b], x, rule, a, b);
      }
    }
  }

  /** Filling [i, i + l - 1] after a search from a nonzero root keeps SearchesFoundUpTo. */
  lemma SearchesAdvance(x: Probs, rule: BaseRule, n: int, l: int, i: int)
    requires x.Valid() && n == x.N() && 2 <= l && 1 <= i <= n - l + 1
    requires SearchesFoundUpTo(x, rule, n, l, i) && Engine(x, rule, i, i + l - 2).root != 0
    ensures SearchesFoundUpTo(x, rule, n, l, i + 1)
  {
    forall a, b | 1 <= a <= b < n && Done(l, i + 1, a, b + 1)
      ensures Engine(x, rule, a, b).root != 0
    {
      if a != i || b != i + l - 2 {
        assert Done(l, i, a, b + 1);
      }
    }
  }

  /** The engine's entry for [i, j] when the root of [i, j - 1] is not 0: the scan of the window. */
  lemma EngineSearches(x: Probs, rule: BaseRule, i: int, j: int)
    requires InRange(x, i, j) && i < j && Engine(x, rule, i, j - 1).root != 0
    ensures Engine(x, rule, i, j) ==
            EngineScan(x, rule, i, j, Engine(x, rule, i, j - 1).root, ScanEnd(Engine(x, rule, i, j - 1).root, Engine(x, rule, i + 1, j).root))
  {
  }

  /**
   * computeOBST: fills the ranges of two or more keys by increasing length,
   * each from the shorter ones, searching roots only in Knuth's window
   * between the roots stored for the two ranges one key shorter. It fails
   * (ok is false) exactly when some search starts at root 0: the first
   * candidate then reads E[i, -1], which the table's operator[] rejects
   * with out_of_range. Otherwise every cell holds the weight and the
   * engine's entry of its range.
   */
  method ComputeOBST(E: array2<real>, W: array2<real>, Root: array2<int>, n: int, x: Probs, rule: BaseRule)
    returns (ok: bool)
    requires x.Valid() && n == x.N() && Tables(E, W, Root, n)
    requires TablesUpTo(E, W, Root, x, rule, n, 2, 1)
    modifies E, W, Root
    ensures ok <==> NoSearchFault(x, rule)
    ensures ok ==> Filled(E, W, Root, x, rule, n)
  {
    var l := 2;
    while l <= n
      invariant 2 <= l <= if n < 2 then 2 else n + 1
      invariant TablesUpTo(E, W, Root, x, rule, n, l, 1) && SearchesFoundUpTo(x, rule, n, l, 1)
    {
      var i := 1;
      while i <= n - l + 1
        invariant 1 <= i <= n - l + 2
        invariant TablesUpTo(E, W, Root, x, rule, n, l, i) && SearchesFoundUpTo(x, rule, n, l, i)
      {
        var found := FillRange(E, W, Root, n, x, rule, l, i);
        if !found {
          return false;
        }
        i := i + 1;
      }
      l := l + 1;
    }
    forall a, b | 1 <= a <= b < n
      ensures Engine(x, rule, a, b).root != 0
    {
      assert Done(l, 1, a, b + 1);
    }
    return true;
  }

  /** The cost of [i, j] with root r, as the tables give it. */
  function CandidateCost(E: array2<real>, W: array2<real>, i: int, j: int, r: int): real
    reads E, W
    requires 1 <= i <= r <= j && j + 1 < E.Length0 && j < E.Length1 && i < W.Length0 && j < W.Length1
  {
    E[i, r - 1] + E[r + 1, j] + W[i, j]
  }

  /**
   * What filled tables say about the roots the engine recorded, when its
   * costs stay below the sentinel: each lies in its range and between the
   * roots of the two ranges one key shorter; the cost of each range of two
   * or more keys is that of its recorded root, no more than that of any
   * root in the window searched, and less than that of any root of the
   * window before it.
   */
  lemma FilledTables(E: array2<real>, W: array2<real>, Root: array2<int>, n: int, x: Probs, rule: BaseRule)
    requires x.Valid() && n == x.N() && Tables(E, W, Root, n) && EngineBelowSentinel(x, rule)
    requires Filled(E, W, Root, x, rule, n)
    ensures forall a, b :: 1 <= a <= b <= n ==> a <= Root[a, b] <= b
    ensures forall a, b :: 1 <= a < b <= n ==> Root[a, b - 1] <= Root[a, b] <= Root[a + 1, b]
    ensures forall a, b :: 1 <= a < b <= n ==> E[a, b] == CandidateCost(E, W, a, b, Root[a, b])
    ensures forall a, b, r :: 1 <= a < b <= n && Root[a, b - 1] <= r <= Root[a + 1, b] ==> E[a, b] <= CandidateCost(E, W, a, b, r)
    ensures forall a, b, r :: 1 <= a < b <= n && Root[a, b - 1] <= r < Root[a, b] ==> E[a, b] < CandidateCost(E, W, a, b, r)
  {
    EngineRootsChosen(x, rule);
    forall a, b | 1 <= a <= b <= n
      ensures a <= Root[a, b] <= b
    {
      assert CellOk(E[a, b], W[a, b], Root[a, b], x, rule, a, b);
    }
    forall a, b | 1 <= a < b <= n
      ensures Root[a, b - 1] <= Root[a, b] <= Root[a + 1, b]
      ensures E[a, b] == CandidateCost(E, W, a, b, Root[a, b])
    {
      FilledRange(E, W, Root, n, x, rule, a, b);
    }
    forall a, b, r | 1 <= a < b <= n && Root[a, b - 1] <= r <= Root[a + 1, b]
      ensures E[a, b] <= CandidateCost(E, W, a, b, r)
    {
      FilledRange(E, W, Root, n, x, rule, a, b);
    }
    forall a, b, r | 1 <= a < b <= n && Root[a, b - 1] <= r < Root[a, b]
      ensures E[a, b] < CandidateCost(E, W, a, b, r)
    {
      FilledRange(E, W, Root, n, x, rule, a, b);
    }
  }

  /** FilledTables for one range [a, b] of two or more keys. */
  lemma FilledRange(E: array2<real>, W: array2<real>, Root: array2<int>, n: int, x: Probs, rule: BaseRule, a: int, b: int)
    requires x.Valid() && n == x.N() && Tables(E, W, Root, n) && 1 <= a < b <= n
    requires Filled(E, W, Root, x, rule, n)
    requires a <= Engine(x, rule, a, b - 1).root <= Engine(x, rule, a, b).root <= Engine(x, rule, a + 1, b).root <= b
    ensures a <= Root[a, b - 1] <= Root[a, b] <= Root[a + 1, b] <= b
    ensures E[a, b] == CandidateCost(E, W, a, b, Root[a, b])
    ensures forall r :: Root[a, b - 1] <= r <= Root[a + 1, b] ==> E[a, b] <= CandidateCost(E, W, a, b, r)
    ensures forall r :: Root[a, b - 1] <= r < Root[a, b] ==> E[a, b] < CandidateCost(E, W, a, b, r)
  {
    assert CellOk(E[a, b], W[a, b], Root[a, b], x, rule, a, b);
    assert CellOk(E[a, b - 1], W[a, b - 1], Root[a, b - 1], x, rule, a, b - 1);
    assert CellOk(E[a + 1, b], W[a + 1, b], Root[a + 1, b], x, rule, a + 1, b);
    var lo, hi := Root[a, b - 1], Root[a + 1, b];
    EngineSearches(x, rule, a, b);
    assert ScanEnd(lo, hi) == hi + 1;
    EngineScanIsFirstMinimum(x, rule, a, b, lo, hi + 1);
    CandidatesAgree(E, W, Root, n, x, rule, a, b, Root[a, b]);
    forall r | lo <= r <= hi
      ensures E[a, b] <= CandidateCost(E, W, a, b, r)
    {
      CandidatesAgree(E, W, Root, n, x, rule, a, b, r);
    }
    forall r | lo <= r < Root[a, b]
      ensures E[a, b] < CandidateCost(E, W, a, b, r)
    {
      CandidatesAgree(E, W, Root, n, x, rule, a, b, r);
    }
  }

  /** In filled tables the cost of root r for [a, b] is the engine's candidate cost. */
  lemma CandidatesAgree(E: array2<real>, W: array2<real>, Root: array2<int>, n: int, x: Probs, rule: BaseRule, a: int, b: int, r: int)
    requires x.Valid() && n == x.N() && Tables(E, W, Root, n) && 1 <= a <= r <= b <= n
    requires Filled(E, W, Root, x, rule, n)
    ensures CandidateCost(E, W, a, b, r) == EngineCand(x, rule, a, b, r)
  {
    assert CellOk(E[a, b], W[a, b], Root[a, b], x, rule, a, b);
    assert CellOk(E[a, r - 1], W[a, r - 1], Root[a, r - 1], x, rule, a, r - 1);
    assert CellOk(E[r + 1, b], W[r + 1, b], Root[r + 1, b], x, rule, r + 1, b);
  }

  /**
   * When best roots are monotone and costs stay below the sentinel by the
   * recurrence, filled tables hold its costs and first best roots, and the
   * cost of each range is no more than that of any of its roots: the narrow
   * search lost nothing.
   */
  lemma FilledTablesOptimal(E: array2<real>, W: array2<real>, Root: array2<int>, n: int, x: Probs, rule: BaseRule)
    requires x.Valid() && n == x.N() && Tables(E, W, Root, n) && KnuthMonotone(x, rule) && BelowSentinel(x, rule)
    requires Filled(E, W, Root, x, rule, n)
    ensures forall a, b :: 1 <= a <= b + 1 <= n + 1 ==> E[a, b] == Cost(x, rule, a, b)
    ensures forall a, b :: 1 <= a <= b <= n ==> Root[a, b] == BestRoot(x, rule, a, b)
    ensures forall a, b, r :: 1 <= a < b <= n && a <= r <= b ==> E[a, b] <= CandidateCost(E, W, a, b, r)
  {
    forall a, b | 1 <= a <= b + 1 <= n + 1
      ensures E[a, b] == Cost(x, rule, a, b)
      ensures a <= b ==> Root[a, b] == BestRoot(x, rule, a, b)
    {
      assert CellOk(E[a, b], W[a, b], Root[a, b], x, rule, a, b);
      EngineIsRecurrence(x, rule, a, b);
    }
    forall a, b, r | 1 <= a < b <= n && a <= r <= b
      ensures E[a, b] <= CandidateCost(E, W, a, b, r)
    {
      ArgMinIsFirstMinimum(x, rule, a, b, a, b);
      assert MinCand(x, rule, a, b, a, b) <= Cand(x, rule, a, b, r);
      assert W[a, b] == Weight(x, a, b) by {
        assert CellOk(E[a, b], W[a, b], Root[a, b], x, rule, a, b);
      }
    }
  }

  /** Every range of the root table holds 0 or a root inside the range. */
  ghost predicate RootsInRange(Root: array2<int>)
    reads Root
  {
    2 <= Root.Length0 && Root.Length1 == Root.Length0 &&
    forall a, b :: 1 <= a <= b <= Root.Length0 - 2 ==> Root[a, b] == 0 || a <= Root[a, b] <= b
  }

  /** Every range inside [i, j] has a root inside it. */
  ghost predicate RootsChosen(Root: array2<int>, i: int, j: int)
    reads Root
  {
    forall a, b :: i <= a <= b <= j && 0 <= a < Root.Length0 && 0 <= b < Root.Length1 ==> a <= Root[a, b] <= b
  }

  /**
   * buildTreeFromRoot: the tree of [i, j] from the root table, with key r
   * labelled labels[r - 1]; empty when i > j or the root entry is 0, and
   * OutOfRange when a root has no label.
   */
  function BuildTreeFromRoot(Root: array2<int>, labels: seq<string>, i: int, j: int): Access<TreeNode>
    reads Root
    requires RootsInRange(Root) && 1 <= i && j <= Root.Length0 - 2
    decreases j - i + 1
  {
    if i > j || Root[i, j] == 0 then Ok(Nil)
    else
      var r := Root[i, j];
      if r - 1 >= |labels| then OutOfRange
      else
        match (BuildTreeFromRoot(Root, labels, i, r - 1), BuildTreeFromRoot(Root, labels, r + 1, j))
        case (Ok(left), Ok(right)) => Ok(Node(left, labels[r - 1], right))
        case _ => OutOfRange
  }

  /**
   * The tree buildTreeFromRoot builds over [i, j] from the roots the engine
   * stores: empty when i > j or the root is 0, OutOfRange when a root has
   * no label.
   */
  function EngineTree(x: Probs, rule: BaseRule, labels: seq<string>, i: int, j: int): Access<TreeNode>
    requires InRange(x, i, j)
    decreases j - i + 1
  {
    var r := Engine(x, rule, i, j).root;
    if i > j || r == 0 then Ok(Nil)
    else if r - 1 >= |labels| then OutOfRange
    else
      match (EngineTree(x, rule, labels, i, r - 1), EngineTree(x, rule, labels, r + 1, j))
      case (Ok(left), Ok(right)) => Ok(Node(left, labels[r - 1], right))
      case _ => OutOfRange
  }

  /** When the root table holds the engine's roots, buildTreeFromRoot builds EngineTree. */
  lemma {:induction false} BuildTreeIsEngineTree(Root: array2<int>, labels: seq<string>, x: Probs, rule: BaseRule, i: int, j: int)
    requires RootsInRange(Root) && Root.Length0 == x.N() + 2 && InRange(x, i, j)
    requires forall a, b {:trigger Root[a, b], Engine(x, rule, a, b)} :: 1 <= a <= b <= x.N() ==> Root[a, b] == Engine(x, rule, a, b).root
    ensures BuildTreeFromRoot(Root, labels, i, j) == EngineTree(x, rule, labels, i, j)
    decreases j - i + 1
  {
    if i <= j {
      var r := Root[i, j];
      assert r == Engine(x, rule, i, j).root;
      if r != 0 {
        BuildTreeIsEngineTree(Root, labels, x, rule, i, r - 1);
        BuildTreeIsEngineTree(Root, labels, x, rule, r + 1, j);
      }
    }
    EngineTreeStep(Root, labels, x, rule, i, j);
  }

  /** One node of BuildTreeIsEngineTree: equal roots and equal subtrees give equal trees. */
  lemma EngineTreeStep(Root: array2<int>, labels: seq<string>, x: Probs, rule: BaseRule, i: int, j: int)
    requires RootsInRange(Root) && Root.Length0 == x.N() + 2 && InRange(x, i, j)
    requires i <= j ==> Root[i, j] == Engine(x, rule, i, j).root
    requires i <= j && Root[i, j] != 0 ==>
               BuildTreeFromRoot(Root, labels, i, Root[i, j] - 1) == EngineTree(x, rule, labels, i, Root[i, j] - 1) &&
               BuildTreeFromRoot(Root, labels, Root[i, j] + 1, j) == EngineTree(x, rule, labels, Root[i, j] + 1, j)
    ensures BuildTreeFromRoot(Root, labels, i, j) == EngineTree(x, rule, labels, i, j)
  {
  }

  /**
   * With a root chosen in every range and a label for every key, the tree
   * of [i, j] is built, has j - i + 1 nodes, and lists labels[i - 1..j - 1]
   * in order: it is a search tree over those labels.
   */
  lemma {:induction false} BuildTreeKeepsOrder(Root: array2<int>, labels: seq<string>, i: int, j: int)
    requires RootsInRange(Root) && 1 <= i <= j + 1 && j <= Root.Length0 - 2
    requires RootsChosen(Root, i, j) && j <= |labels|
    ensures BuildTreeFromRoot(Root, labels, i, j).Ok?
    ensures InOrder(BuildTreeFromRoot(Root, labels, i, j).value) == labels[i - 1..j]
    ensures CountNodes(BuildTreeFromRoot(Root, labels, i, j).value) == j - i + 1
    decreases j - i + 1
  {
    if i <= j {
      var r := Root[i, j];
      assert i <= r <= j;
      BuildTreeKeepsOrder(Root, labels, i, r - 1);
      BuildTreeKeepsOrder(Root, labels, r + 1, j);
      var left := BuildTreeFromRoot(Root, labels, i, r - 1).value;
      var right := BuildTreeFromRoot(Root, labels, r + 1, j).value;
      BuildNode(Root, labels, i, j, left, right);
      NodeInOrder(left, right, labels, i, r, j);
    }
  }

  /** One node of buildTreeFromRoot: root r over the two built subtrees. */
  lemma BuildNode(Root: array2<int>, labels: seq<string>, i: int, j: int, left: TreeNode, right: TreeNode)
    requires RootsInRange(Root) && 1 <= i <= j <= Root.Length0 - 2 && i <= Root[i, j] <= j && Root[i, j] <= |labels|
    requires BuildTreeFromRoot(Root, labels, i, Root[i, j] - 1) == Ok(left)
    requires BuildTreeFromRoot(Root, labels, Root[i, j] + 1, j) == Ok(right)
    ensures BuildTreeFromRoot(Root, labels, i, j) == Ok(Node(left, labels[Root[i, j] - 1], right))
  {
  }

  /** A node labelled labels[r - 1] over the labels left and right of it lists labels[i - 1..j - 1]. */
  lemma NodeInOrder(left: TreeNode, right: TreeNode, labels: seq<string>, i: int, r: int, j: int)
    requires 1 <= i <= r <= j <= |labels|
    requires InOrder(left) == labels[i - 1..r - 1] && InOrder(right) == labels[r..j]
    ensures InOrder(Node(left, labels[r - 1], right)) == labels[i - 1..j]
  {
    assert labels[i - 1..j] == labels[i - 1..r - 1] + [labels[r - 1]] + labels[r..j];
  }

  /** With a root chosen in every range, building [i, j] fails when label j - 1 is missing. */
  lemma {:induction false} BuildTreeNeedsLabels(Root: array2<int>, labels: seq<string>, i: int, j: int)
    requires RootsInRange(Root) && 1 <= i <= j <= Root.Length0 - 2
    requires RootsChosen(Root, i, j) && |labels| < j
    ensures BuildTreeFromRoot(Root, labels, i, j).OutOfRange?
    decreases j - i + 1
  {
    var r := Root[i, j];
    if r < j && r - 1 < |labels| {
      BuildTreeNeedsLabels(Root, labels, r + 1, j);
    }
  }

  /** The labelled tree of a shape over [i, j]: key r carries labels[r - 1]. */
  function ShapeTree(s: Shape, i: int, j: int, labels: seq<string>): TreeNode
    requires ValidShape(s, i, j) && 1 <= i && j <= |labels|
  {
    match s
    case Empty => Nil
    case Split(l, r, rt) => Node(ShapeTree(l, i, r - 1, labels), labels[r - 1], ShapeTree(rt, r + 1, j, labels))
  }

  /** When the table holds the best roots, the tree built from it is the tree of best roots. */
  lemma {:induction false} BuildTreeIsOptShape(Root: array2<int>, labels: seq<string>, x: Probs, rule: BaseRule, i: int, j: int)
    requires RootsInRange(Root) && Root.Length0 == x.N() + 2 && InRange(x, i, j) && j <= |labels|
    requires forall a, b :: i <= a <= b <= j ==> Root[a, b] == BestRoot(x, rule, a, b)
    ensures BuildTreeFromRoot(Root, labels, i, j) == Ok(ShapeTree(OptShape(x, rule, i, j), i, j, labels))
    decreases j - i + 1
  {
    if i <= j {
      var r := Root[i, j];
      BestRootInRange(x, rule, i, j);
      BuildTreeIsOptShape(Root, labels, x, rule, i, r - 1);
      BuildTreeIsOptShape(Root, labels, x, rule, r + 1, j);
    }
  }

  /** convertToTree: a new tree whose nodes are built from the root table over [1, n]. */
  method ConvertToTree(Root: array2<int>, labels: seq<string>, n: int) returns (result: Access<Tree>)
    requires RootsInRange(Root) && n == Root.Length0 - 2
    ensures result.OutOfRange? <==> BuildTreeFromRoot(Root, labels, 1, n).OutOfRange?
    ensures result.Ok? ==> fresh(result.value) && result.value.root == BuildTreeFromRoot(Root, labels, 1, n).value
  {
    var tree := new Tree();
    var built := BuildTreeFromRoot(Root, labels, 1, n);
    if built.OutOfRange? {
      return OutOfRange;
    }
    tree.SetRoot(built.value);
    return Ok(tree);
  }

  /**
   * The tree built from filled tables is the one the engine's roots give.
   * When the engine's costs stay below the sentinel it fails only for want
   * of labels and is otherwise a search tree over labels[0..n - 1] with one
   * node per key; when moreover best roots are monotone and the
   * recurrence's costs stay below the sentinel, it is the tree of best roots.
   */
  lemma FilledTree(E: array2<real>, W: array2<real>, Root: array2<int>, n: int, x: Probs, rule: BaseRule, labels: seq<string>)
    requires x.Valid() && n == x.N() && Tables(E, W, Root, n) && Filled(E, W, Root, x, rule, n)
    ensures RootsInRange(Root)
    ensures BuildTreeFromRoot(Root, labels, 1, n) == EngineTree(x, rule, labels, 1, n)
    ensures EngineBelowSentinel(x, rule) ==>
              (BuildTreeFromRoot(Root, labels, 1, n).OutOfRange? <==> |labels| < n) &&
              (BuildTreeFromRoot(Root, labels, 1, n).Ok? ==>
                 InOrder(BuildTreeFromRoot(Root, labels, 1, n).value) == labels[..n] &&
                 CountNodes(BuildTreeFromRoot(Root, labels, 1, n).value) == n)
    ensures KnuthMonotone(x, rule) && BelowSentinel(x, rule) && n <= |labels| ==>
              BuildTreeFromRoot(Root, labels, 1, n) == Ok(ShapeTree(OptShape(x, rule, 1, n), 1, n, labels))
  {
    forall a, b | 1 <= a <= b <= n
      ensures Root[a, b] == Engine(x, rule, a, b).root
      ensures Root[a, b] == 0 || a <= Root[a, b] <= b
    {
      assert CellOk(E[a, b], W[a, b], Root[a, b], x, rule, a, b);
    }
    assert RootsInRange(Root);
    BuildTreeIsEngineTree(Root, labels, x, rule, 1, n);
    if EngineBelowSentinel(x, rule) {
      EngineRootsChosen(x, rule);
      assert RootsChosen(Root, 1, n);
      if n <= |labels| {
        BuildTreeKeepsOrder(Root, labels, 1, n);
      } else {
        BuildTreeNeedsLabels(Root, labels, 1, n);
      }
    }
    if KnuthMonotone(x, rule) && BelowSentinel(x, rule) && n <= |labels| {
      FilledTablesOptimal(E, W, Root, n, x, rule);
      BuildTreeIsOptShape(Root, labels, x, rule, 1, n);
    }
  }

  /**
   * generateTheOBST: n = |p| - 1 keys. Fails with OutOfRange when p is
   * empty, when q has fewer than n + 1 entries, when a root search starts
   * at root 0, or when building the tree reaches a root with no label;
   * otherwise it returns the tree buildTreeFromRoot makes of the engine's
   * roots. When the engine's costs stay below the sentinel, that tree is a
   * search tree over labels[0..n - 1] with one node per key, and it fails
   * only for want of labels; when moreover best roots are monotone and the
   * recurrence's costs stay below the sentinel, it is the tree of best
   * roots. The display flag is left out. rule selects the base case:
   * SingleKeyWeight is the engine as written.
   */
  method GenerateTheOBST(p: seq<real>, q: seq<real>, labels: seq<string>, rule: BaseRule) returns (result: Access<Tree>)
    ensures result.OutOfRange? <==>
              |p| == 0 || |q| < |p| || !NoSearchFault(Probs(p, q), rule) ||
              EngineTree(Probs(p, q), rule, labels, 1, |p| - 1).OutOfRange?
    ensures result.Ok? ==> fresh(result.value)
    ensures result.Ok? && |p| >= 1 && |q| >= |p| ==>
              EngineTree(Probs(p, q), rule, labels, 1, |p| - 1) == Ok(result.value.root)
    ensures |p| >= 1 && |q| >= |p| && EngineBelowSentinel(Probs(p, q), rule) ==>
              (result.OutOfRange? <==> |labels| < |p| - 1) &&
              (result.Ok? ==> InOrder(result.value.root) == labels[..|p| - 1] && CountNodes(result.value.root) == |p| - 1)
    ensures |p| >= 1 && |q| >= |p| && |p| - 1 <= |labels| && KnuthMonotone(Probs(p, q), rule) && BelowSentinel(Probs(p, q), rule) && result.Ok? ==>
              result.value.root == ShapeTree(OptShape(Probs(p, q), rule, 1, |p| - 1), 1, |p| - 1, labels)
    ensures |p| == 1 && |q| >= 1 ==> result.Ok? && result.value.root == Nil
  {
    if |p| == 0 {
      // n is -1 and the base case writes W[0][-1]
      return OutOfRange;
    }
    var n := |p| - 1;
    if |q| < |p| {
      // the base cases read q[n]
      return OutOfRange;
    }
    var x := Probs(p, q);
    var e := Create2D(n + 2, n + 2, 0.0);
    var w := Create2D(n + 2, n + 2, 0.0);
    var root := Create2D(n + 2, n + 2, 0);
    InitializeLoop(e, w, root, n, x, rule);
    forall a, b | 1 <= a <= b + 1 <= n + 1 && Done(2, 1, a, b)
      ensures CellOk(e[a, b], w[a, b], root[a, b], x, rule, a, b)
    {
      if b == a - 1 {
      } else {
        assert b == a;
      }
    }
    var ok := ComputeOBST(e, w, root, n, x, rule);
    if !ok {
      if EngineBelowSentinel(x, rule) {
        EngineRootsChosen(x, rule);
      }
      return OutOfRange;
    }
    FilledTree(e, w, root, n, x, rule, labels);
    result := ConvertToTree(root, labels, n);
  }

  /** The three push_back calls of addNode. */
  method PushInputs(nodeLabel: string, p: real, q: real, labels: Vector<string>, P: Vector<real>, Q: Vector<real>)
    requires labels.Valid() && P.Valid() && Q.Valid() && P != Q && P.data != Q.data
    modifies labels, labels.data, P, P.data, Q, Q.data
    ensures labels.Valid() && P.Valid() && Q.Valid() && P.data != Q.data
    ensures labels.Contents() == old(labels.Contents()) + [nodeLabel]
    ensures P.Contents() == old(P.Contents()) + [p]
    ensures Q.Contents() == old(Q.Contents()) + [q]
    ensures fresh(labels.data) || labels.data == old(labels.data)
    ensures fresh(P.data) || P.data == old(P.data)
    ensures fresh(Q.data) || Q.data == old(Q.data)
  {
    ghost var l0, p0, q0 := labels.Contents(), P.Contents(), Q.Contents();
    labels.PushBack(nodeLabel);
    assert P.Contents() == p0 && Q.Contents() == q0;
    P.PushBack(p);
    assert labels.Contents() == l0 + [nodeLabel] && Q.Contents() == q0;
    Q.PushBack(q);
  }

  /**
   * addNode: appends a label, its probability and a dummy-key probability,
   * then re-sorts the labels with the probabilities beside them. The dummy
   * probabilities are not re-sorted.
   */
  method AddNode(nodeLabel: string, p: real, q: real, labels: Vector<string>, P: Vector<real>, Q: Vector<real>)
    requires labels.Valid() && P.Valid() && Q.Valid() && P != Q && P.data != Q.data
    requires P.Size() >= labels.Size() + 1
    modifies labels, labels.data, P, P.data, Q, Q.data
    ensures labels.Valid() && P.Valid() && Q.Valid()
    ensures |labels.Contents()| == old(|labels.Contents()|) + 1 && |P.Contents()| == old(|P.Contents()|) + 1
    ensures multiset(labels.Contents()) == multiset(old(labels.Contents()) + [nodeLabel])
    ensures multiset(Pairs(labels.Contents(), P.Contents())) ==
            multiset(Pairs(old(labels.Contents()) + [nodeLabel], old(P.Contents()) + [p]))
    ensures P.Contents()[0] == old(P.Contents())[0]
    ensures P.Contents()[labels.len + 1..] == (old(P.Contents()) + [p])[labels.len + 1..]
    ensures Q.Contents() == old(Q.Contents()) + [q]
    ensures TransitiveOn(old(labels.Contents()) + [nodeLabel]) ==> AdjacentSorted(labels.Contents())
  {
    PushInputs(nodeLabel, p, q, labels, P, Q);
    ghost var q1 := Q.Contents();
    SortInputs(labels, P);
    assert Q.Contents() == q1;
  }
}
