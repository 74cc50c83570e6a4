/**
 * The optimal binary search tree recurrences (dummy-key formulation, the
 * one in section 15.5 of Cormen, Leiserson, Rivest and Stein,
 * "Introduction to Algorithms", 3rd edition) as pure functions over the
 * key probabilities p[1..n] and dummy-key probabilities q[0..n].
 *
 * Ranges are written [i, j] with 1 <= i <= j + 1 <= n + 1; the range
 * [i, i - 1] holds no key, only the dummy key q[i - 1].
 */
module ObstSpec {

  /** The probabilities the engine is given: p[0] is unused, n == |p| - 1. */
  datatype Probs = Probs(p: seq<real>, q: seq<real>)
  {
    /** The table sizes the engine relies on: at least p[0], and q[0..n]. */
    predicate Valid() { |p| >= 1 && |q| >= |p| }

    /** The number of keys. */
    function N(): int { |p| - 1 }
  }

  /** A range [i, j] of keys, possibly empty. */
  predicate InRange(x: Probs, i: int, j: int)
  {
    x.Valid() && 1 <= i <= j + 1 <= x.N() + 1
  }

  /**
   * How a range that holds a single key is costed. SingleKeyWeight is what
   * the base case of the engine writes (the cost of [a, a] is the weight of
   * [a, a]); Uniform costs it by the same recurrence as longer ranges.
   */
  datatype BaseRule = SingleKeyWeight | Uniform

  /** The "infinity" the root search starts from: INT32_MAX as a float. */
  const Sentinel: real := 2147483648.0

  /** Weight of [i, j]: q[i - 1] plus p[k] + q[k] for every key k in the range. */
  function Weight(x: Probs, i: int, j: int): real
    requires InRange(x, i, j)
    decreases j - i + 1
  {
    if j < i then x.q[i - 1] else Weight(x, i, j - 1) + x.p[j] + x.q[j]
  }

  /** Sum of p[k] + q[k] over the keys k of [i, j], added from the left end. */
  function KeySum(x: Probs, i: int, j: int): real
    requires InRange(x, i, j)
    decreases j - i + 1
  {
    if j < i then 0.0 else x.p[i] + x.q[i] + KeySum(x, i + 1, j)
  }

  /** KeySum can also be taken off from the right end. */
  lemma {:induction false} KeySumRight(x: Probs, i: int, j: int)
    requires InRange(x, i, j) && i <= j
    ensures KeySum(x, i, j) == KeySum(x, i, j - 1) + x.p[j] + x.q[j]
    decreases j - i + 1
  {
    if i < j {
      KeySumRight(x, i + 1, j);
    }
  }

  /** The weight of a range is its leftmost dummy key plus the sum over its keys. */
  lemma {:induction false} WeightIsSum(x: Probs, i: int, j: int)
    requires InRange(x, i, j)
    ensures Weight(x, i, j) == x.q[i - 1] + KeySum(x, i, j)
    decreases j - i + 1
  {
    if i <= j {
      WeightIsSum(x, i, j - 1);
      KeySumRight(x, i, j);
    }
  }

  /** Splitting [i, j] at a key r: the two sides plus the key itself. */
  lemma {:induction false} WeightSplit(x: Probs, i: int, r: int, j: int)
    requires InRange(x, i, j) && i <= r <= j
    ensures Weight(x, i, j) == Weight(x, i, r - 1) + x.p[r] + Weight(x, r + 1, j)
    decreases j - r
  {
    if r < j {
      WeightSplit(x, i, r, j - 1);
    }
  }

  /** Expected search cost of the range [i, j] in an optimal tree, under the given base rule. */
  function Cost(x: Probs, rule: BaseRule, i: int, j: int): real
    requires InRange(x, i, j)
    decreases j - i + 1, 2, 0
  {
    if j < i then x.q[i - 1]
    else if i == j && rule == SingleKeyWeight then Weight(x, i, i)
    else MinCand(x, rule, i, j, i, j)
  }

  /** Cost of [i, j] when key r is its root. */
  function Cand(x: Probs, rule: BaseRule, i: int, j: int, r: int): real
    requires InRange(x, i, j) && i <= r <= j
    decreases j - i + 1, 0, 0
  {
    Cost(x, rule, i, r - 1) + Cost(x, rule, r + 1, j) + Weight(x, i, j)
  }

  /** Least candidate cost over the roots lo..hi of [i, j]. */
  function MinCand(x: Probs, rule: BaseRule, i: int, j: int, lo: int, hi: int): real
    requires InRange(x, i, j) && i <= lo <= hi <= j
    decreases j - i + 1, 1, hi - lo
  {
    if lo == hi then Cand(x, rule, i, j, lo)
    else
      var m := MinCand(x, rule, i, j, lo, hi - 1);
      var c := Cand(x, rule, i, j, hi);
      if c < m then c else m
  }

  /** The first root among lo..hi of [i, j] whose candidate cost is least. */
  function ArgMin(x: Probs, rule: BaseRule, i: int, j: int, lo: int, hi: int): int
    requires InRange(x, i, j) && i <= lo <= hi <= j
    decreases hi - lo
  {
    if lo == hi then lo
    else if Cand(x, rule, i, j, hi) < MinCand(x, rule, i, j, lo, hi - 1) then hi
    else ArgMin(x, rule, i, j, lo, hi - 1)
  }

  /** The root the engine should choose for [i, j]: the first optimal one. */
  function BestRoot(x: Probs, rule: BaseRule, i: int, j: int): int
    requires InRange(x, i, j) && i <= j
  {
    ArgMin(x, rule, i, j, i, j)
  }

  /**
   * ArgMin is a first minimiser: it lies in lo..hi, its candidate cost is
   * MinCand, no candidate in lo..hi costs less, and every root before it
   * costs strictly more.
   */
  lemma {:induction false} ArgMinIsFirstMinimum(x: Probs, rule: BaseRule, i: int, j: int, lo: int, hi: int)
    requires InRange(x, i, j) && i <= lo <= hi <= j
    ensures lo <= ArgMin(x, rule, i, j, lo, hi) <= hi
    ensures Cand(x, rule, i, j, ArgMin(x, rule, i, j, lo, hi)) == MinCand(x, rule, i, j, lo, hi)
    ensures forall r :: lo <= r <= hi ==> MinCand(x, rule, i, j, lo, hi) <= Cand(x, rule, i, j, r)
    ensures forall r :: lo <= r < ArgMin(x, rule, i, j, lo, hi) ==> MinCand(x, rule, i, j, lo, hi) < Cand(x, rule, i, j, r)
    decreases hi - lo
  {
    if lo < hi {
      ArgMinIsFirstMinimum(x, rule, i, j, lo, hi - 1);
    }
  }

  /**
   * The base cases: an empty range costs and weighs its dummy key; a single
   * key a weighs q[a - 1] + p[a] + q[a], is its own best root, and costs its
   * weight under SingleKeyWeight and its weight plus both dummy keys under Uniform.
   */
  lemma BaseCases(x: Probs, rule: BaseRule, a: int)
    requires x.Valid() && 1 <= a <= x.N()
    ensures Weight(x, a, a - 1) == x.q[a - 1] && Cost(x, rule, a, a - 1) == x.q[a - 1]
    ensures Weight(x, a, a) == x.q[a - 1] + x.p[a] + x.q[a]
    ensures BestRoot(x, rule, a, a) == a
    ensures Cost(x, rule, a, a) == if rule == SingleKeyWeight then Weight(x, a, a) else x.q[a - 1] + x.q[a] + Weight(x, a, a)
  {
    assert Cand(x, rule, a, a, a) == Cost(x, rule, a, a - 1) + Cost(x, rule, a + 1, a) + Weight(x, a, a);
  }

  /** The best root of a range lies in the range. */
  lemma BestRootInRange(x: Probs, rule: BaseRule, i: int, j: int)
    requires InRange(x, i, j) && i <= j
    ensures i <= BestRoot(x, rule, i, j) <= j
  {
    ArgMinIsFirstMinimum(x, rule, i, j, i, j);
  }

  /** For a range of two or more keys, the cost is the least candidate cost over all its roots. */
  lemma CostIsMinCand(x: Probs, rule: BaseRule, i: int, j: int)
    requires InRange(x, i, j) && i < j
    ensures Cost(x, rule, i, j) == MinCand(x, rule, i, j, i, j)
    ensures i <= BestRoot(x, rule, i, j) <= j
    ensures Cost(x, rule, i, j) == Cand(x, rule, i, j, BestRoot(x, rule, i, j))
  {
    ArgMinIsFirstMinimum(x, rule, i, j, i, j);
  }

  /**
   * Searching only lo..hi finds the same least cost and the same first
   * root as searching all of [i, j], as long as lo..hi holds the best root.
   */
  lemma RestrictedSearch(x: Probs, rule: BaseRule, i: int, j: int, lo: int, hi: int)
    requires InRange(x, i, j) && i <= lo <= hi <= j
    requires lo <= BestRoot(x, rule, i, j) <= hi
    ensures MinCand(x, rule, i, j, lo, hi) == MinCand(x, rule, i, j, i, j)
    ensures ArgMin(x, rule, i, j, lo, hi) == BestRoot(x, rule, i, j)
  {
    ArgMinIsFirstMinimum(x, rule, i, j, i, j);
    ArgMinIsFirstMinimum(x, rule, i, j, lo, hi);
    var a, a' := BestRoot(x, rule, i, j), ArgMin(x, rule, i, j, lo, hi);
    var m, m' := MinCand(x, rule, i, j, i, j), MinCand(x, rule, i, j, lo, hi);
    assert m <= Cand(x, rule, i, j, a');
    assert m' <= Cand(x, rule, i, j, a);
  }

  /** One cell of the engine's cost and root tables. */
  datatype Entry = Entry(cost: real, root: int)

  /**
   * What the engine as written stores in E[i, j] and Root[i, j]. Ranges of
   * fewer than two keys get the base cases. A longer range starts from the
   * sentinel and root 0, and tries the roots from the one the engine stored
   * for [i, j - 1] to the one it stored for [i + 1, j], keeping a candidate
   * only when it is strictly cheaper. When the root stored for [i, j - 1]
   * is 0, the first candidate reads E[i, -1] and the engine fails (see
   * NoSearchFault); the entry is then left at the sentinel and root 0.
   */
  function Engine(x: Probs, rule: BaseRule, i: int, j: int): (e: Entry)
    requires InRange(x, i, j)
    ensures e.root == 0 || i <= e.root <= j
    decreases j - i + 1, 1, 0
  {
    if j < i then Entry(x.q[i - 1], 0)
    else if i == j then
      Entry(if rule == SingleKeyWeight then Weight(x, i, i) else x.q[i - 1] + x.q[i] + Weight(x, i, i), i)
    else
      var lo, hi := Engine(x, rule, i, j - 1).root, Engine(x, rule, i + 1, j).root;
      if lo == 0 then Entry(Sentinel, 0)
      else EngineScan(x, rule, i, j, lo, ScanEnd(lo, hi))
  }

  /** Where a search from root lo up to root hi stops: past hi, or at lo when there is nothing to try. */
  function ScanEnd(lo: int, hi: int): int
  {
    if hi < lo then lo else hi + 1
  }

  /** The engine's candidate cost of root r for [i, j], from the entries it stored for the two sides. */
  function EngineCand(x: Probs, rule: BaseRule, i: int, j: int, r: int): real
    requires InRange(x, i, j) && i <= r <= j
    decreases j - i + 1, 0, 0
  {
    Engine(x, rule, i, r - 1).cost + Engine(x, rule, r + 1, j).cost + Weight(x, i, j)
  }

  /**
   * The root search loop after trying the roots lo..r-1: the running least
   * cost and its root, from the sentinel and root 0, replaced only on a
   * strictly smaller candidate.
   */
  function EngineScan(x: Probs, rule: BaseRule, i: int, j: int, lo: int, r: int): (e: Entry)
    requires InRange(x, i, j) && i <= lo <= r <= j + 1
    ensures e.root == 0 || lo <= e.root < r
    decreases j - i + 1, 0, r - lo
  {
    if r == lo then Entry(Sentinel, 0)
    else
      var m := EngineScan(x, rule, i, j, lo, r - 1);
      var c := EngineCand(x, rule, i, j, r - 1);
      if c < m.cost then Entry(c, r - 1) else m
  }

  /**
   * The search loop finds a first minimum of what it tries: its cost is no
   * more than any candidate, a recorded root is one of least cost, and every
   * root tried before it costs strictly more.
   */
  lemma {:induction false} EngineScanIsFirstMinimum(x: Probs, rule: BaseRule, i: int, j: int, lo: int, r: int)
    requires InRange(x, i, j) && i <= lo <= r <= j + 1
    ensures forall k :: lo <= k < r ==> EngineScan(x, rule, i, j, lo, r).cost <= EngineCand(x, rule, i, j, k)
    ensures EngineScan(x, rule, i, j, lo, r).root != 0 ==>
              EngineScan(x, rule, i, j, lo, r).cost == EngineCand(x, rule, i, j, EngineScan(x, rule, i, j, lo, r).root)
    ensures forall k :: lo <= k < EngineScan(x, rule, i, j, lo, r).root ==>
              EngineScan(x, rule, i, j, lo, r).cost < EngineCand(x, rule, i, j, k)
    decreases r - lo
  {
    if lo < r {
      EngineScanIsFirstMinimum(x, rule, i, j, lo, r - 1);
    }
  }

  /**
   * The search loop's cost never exceeds the sentinel it starts from, and
   * it still holds root 0 exactly when its cost is still the sentinel.
   */
  lemma {:induction false} EngineScanSentinel(x: Probs, rule: BaseRule, i: int, j: int, lo: int, r: int)
    requires InRange(x, i, j) && i <= lo <= r <= j + 1
    ensures EngineScan(x, rule, i, j, lo, r).cost <= Sentinel
    ensures EngineScan(x, rule, i, j, lo, r).root == 0 <==> EngineScan(x, rule, i, j, lo, r).cost == Sentinel
    decreases r - lo
  {
    if lo < r {
      EngineScanSentinel(x, rule, i, j, lo, r - 1);
    }
  }

  /**
   * A range of two or more keys ends with a root of 0 exactly when its
   * engine cost is the sentinel, which no engine cost exceeds.
   */
  lemma EngineSentinel(x: Probs, rule: BaseRule, i: int, j: int)
    requires InRange(x, i, j) && i < j
    ensures Engine(x, rule, i, j).cost <= Sentinel
    ensures Engine(x, rule, i, j).root == 0 <==> Engine(x, rule, i, j).cost == Sentinel
  {
    var lo, hi := Engine(x, rule, i, j - 1).root, Engine(x, rule, i + 1, j).root;
    if lo != 0 {
      EngineScanSentinel(x, rule, i, j, lo, ScanEnd(lo, hi));
    }
  }

  /**
   * Where the engine's candidates agree with the recurrence's, the search
   * loop finds the least candidate and its first root when that cost is
   * below the sentinel, and otherwise keeps the sentinel and root 0.
   */
  lemma {:induction false} ScanFindsMinimum(x: Probs, rule: BaseRule, i: int, j: int, lo: int, r: int)
    requires InRange(x, i, j) && i <= lo < r <= j + 1
    requires forall k :: lo <= k < r ==> EngineCand(x, rule, i, j, k) == Cand(x, rule, i, j, k)
    ensures MinCand(x, rule, i, j, lo, r - 1) < Sentinel ==>
              EngineScan(x, rule, i, j, lo, r) == Entry(MinCand(x, rule, i, j, lo, r - 1), ArgMin(x, rule, i, j, lo, r - 1))
    ensures Sentinel <= MinCand(x, rule, i, j, lo, r - 1) ==> EngineScan(x, rule, i, j, lo, r) == Entry(Sentinel, 0)
    decreases r - lo
  {
    if lo + 1 < r {
      ScanFindsMinimum(x, rule, i, j, lo, r - 1);
    }
  }

  /**
   * The engine never starts a root search at root 0: every non-empty range
   * [i, j] that does not end at the last key, which the longer range
   * [i, j + 1] starts its search from, got a root.
   */
  ghost predicate NoSearchFault(x: Probs, rule: BaseRule)
    requires x.Valid()
  {
    forall i, j :: 1 <= i <= j < x.N() ==> Engine(x, rule, i, j).root != 0
  }

  /** Every non-empty range gets an engine cost below the sentinel. */
  ghost predicate EngineBelowSentinel(x: Probs, rule: BaseRule)
    requires x.Valid()
  {
    forall i, j :: 1 <= i <= j <= x.N() ==> Engine(x, rule, i, j).cost < Sentinel
  }

  /**
   * When the engine's costs stay below the sentinel, every non-empty range
   * gets a root, so no search faults, and the stored roots lie between the
   * roots of the two ranges one key shorter: no window is empty.
   */
  lemma EngineRootsChosen(x: Probs, rule: BaseRule)
    requires x.Valid() && EngineBelowSentinel(x, rule)
    ensures forall i, j :: 1 <= i <= j <= x.N() ==> i <= Engine(x, rule, i, j).root <= j
    ensures NoSearchFault(x, rule)
    ensures forall i, j :: 1 <= i < j <= x.N() ==>
              Engine(x, rule, i, j - 1).root <= Engine(x, rule, i, j).root <= Engine(x, rule, i + 1, j).root
  {
    forall i, j | 1 <= i <= j <= x.N()
      ensures i <= Engine(x, rule, i, j).root <= j
    {
      assert Engine(x, rule, i, j).cost < Sentinel;
      if i < j {
        EngineSentinel(x, rule, i, j);
      }
    }
    forall i, j | 1 <= i < j <= x.N()
      ensures Engine(x, rule, i, j - 1).root <= Engine(x, rule, i, j).root <= Engine(x, rule, i + 1, j).root
    {
      assert Engine(x, rule, i, j).cost < Sentinel;
      EngineSentinel(x, rule, i, j);
      assert i <= Engine(x, rule, i, j - 1).root;
    }
  }

  /**
   * Knuth's monotonicity of best roots: the best root of [i, j] lies
   * between those of [i, j - 1] and [i + 1, j]. Knuth proved it for the
   * recurrence of the Uniform rule; it is what makes the engine's narrow
   * search window sound.
   */
  ghost predicate KnuthMonotone(x: Probs, rule: BaseRule)
    requires x.Valid()
  {
    forall i, j :: 1 <= i < j <= x.N() ==> KnuthAt(x, rule, i, j)
  }

  /** The best root of [i, j] lies between those of [i, j - 1] and [i + 1, j]. */
  ghost predicate KnuthAt(x: Probs, rule: BaseRule, i: int, j: int)
    requires InRange(x, i, j) && i < j
  {
    BestRoot(x, rule, i, j - 1) <= BestRoot(x, rule, i, j) <= BestRoot(x, rule, i + 1, j)
  }

  /** Every non-empty range costs less than the sentinel by the recurrence. */
  ghost predicate BelowSentinel(x: Probs, rule: BaseRule)
    requires x.Valid()
  {
    forall i, j :: 1 <= i <= j <= x.N() ==> Cost(x, rule, i, j) < Sentinel
  }

  /**
   * When best roots are monotone and costs stay below the sentinel, the
   * engine stores the cost and the first best root of every range.
   */
  lemma {:induction false} EngineIsRecurrence(x: Probs, rule: BaseRule, i: int, j: int)
    requires InRange(x, i, j) && KnuthMonotone(x, rule) && BelowSentinel(x, rule)
    ensures Engine(x, rule, i, j).cost == Cost(x, rule, i, j)
    ensures i <= j ==> Engine(x, rule, i, j).root == BestRoot(x, rule, i, j)
    decreases j - i + 1, 1
  {
    if i == j {
      BaseCases(x, rule, i);
    } else if i < j {
      EngineIsRecurrence(x, rule, i, j - 1);
      EngineIsRecurrence(x, rule, i + 1, j);
      BestRootInRange(x, rule, i, j - 1);
      BestRootInRange(x, rule, i + 1, j);
      WindowAgrees(x, rule, i, j, BestRoot(x, rule, i, j - 1), BestRoot(x, rule, i + 1, j));
      assert KnuthAt(x, rule, i, j) && Cost(x, rule, i, j) < Sentinel;
      EngineStep(x, rule, i, j);
    }
  }

  /** Under the same conditions, the engine's candidates for [i, j] are the recurrence's. */
  lemma {:induction false} WindowAgrees(x: Probs, rule: BaseRule, i: int, j: int, lo: int, hi: int)
    requires InRange(x, i, j) && KnuthMonotone(x, rule) && BelowSentinel(x, rule) && i <= lo && hi <= j
    ensures forall k :: lo <= k <= hi ==> EngineCand(x, rule, i, j, k) == Cand(x, rule, i, j, k)
    decreases j - i + 1, 0
  {
    forall k | lo <= k <= hi
      ensures EngineCand(x, rule, i, j, k) == Cand(x, rule, i, j, k)
    {
      EngineIsRecurrence(x, rule, i, k - 1);
      EngineIsRecurrence(x, rule, k + 1, j);
      CandAgrees(x, rule, i, j, k);
    }
  }

  /** The engine's candidate is the recurrence's when it holds the costs of the two sides. */
  lemma CandAgrees(x: Probs, rule: BaseRule, i: int, j: int, k: int)
    requires InRange(x, i, j) && i <= k <= j
    requires Engine(x, rule, i, k - 1).cost == Cost(x, rule, i, k - 1)
    requires Engine(x, rule, k + 1, j).cost == Cost(x, rule, k + 1, j)
    ensures EngineCand(x, rule, i, j, k) == Cand(x, rule, i, j, k)
  {
  }

  /**
   * One step of EngineIsRecurrence: when the engine holds the best roots of
   * the two shorter ranges and its candidates agree with the recurrence's
   * across the window between them, it stores the cost and best root of [i, j].
   */
  lemma EngineStep(x: Probs, rule: BaseRule, i: int, j: int)
    requires InRange(x, i, j) && i < j && Cost(x, rule, i, j) < Sentinel
    requires BestRoot(x, rule, i, j - 1) <= BestRoot(x, rule, i, j) <= BestRoot(x, rule, i + 1, j)
    requires Engine(x, rule, i, j - 1).root == BestRoot(x, rule, i, j - 1)
    requires Engine(x, rule, i + 1, j).root == BestRoot(x, rule, i + 1, j)
    requires forall k :: i <= k <= j && BestRoot(x, rule, i, j - 1) <= k <= BestRoot(x, rule, i + 1, j) ==>
               EngineCand(x, rule, i, j, k) == Cand(x, rule, i, j, k)
    ensures Engine(x, rule, i, j) == Entry(Cost(x, rule, i, j), BestRoot(x, rule, i, j))
  {
    var lo, hi := BestRoot(x, rule, i, j - 1), BestRoot(x, rule, i + 1, j);
    BestRootInRange(x, rule, i, j - 1);
    BestRootInRange(x, rule, i + 1, j);
    assert Engine(x, rule, i, j) == EngineScan(x, rule, i, j, lo, hi + 1);
    WindowScan(x, rule, i, j, lo, hi);
  }

  /**
   * A search over a window lo..hi that holds the best root, where the
   * engine's candidates agree with the recurrence's, finds the cost and the
   * best root of [i, j] when that cost is below the sentinel.
   */
  lemma WindowScan(x: Probs, rule: BaseRule, i: int, j: int, lo: int, hi: int)
    requires InRange(x, i, j) && i < j && Cost(x, rule, i, j) < Sentinel
    requires i <= lo <= BestRoot(x, rule, i, j) <= hi <= j
    requires forall k :: lo <= k <= hi ==> EngineCand(x, rule, i, j, k) == Cand(x, rule, i, j, k)
    ensures EngineScan(x, rule, i, j, lo, hi + 1) == Entry(Cost(x, rule, i, j), BestRoot(x, rule, i, j))
  {
    assert MinCand(x, rule, i, j, lo, hi) == Cost(x, rule, i, j) && ArgMin(x, rule, i, j, lo, hi) == BestRoot(x, rule, i, j) by {
      CostIsMinCand(x, rule, i, j);
      RestrictedSearch(x, rule, i, j, lo, hi);
    }
    ScanFindsMinimum(x, rule, i, j, lo, hi + 1);
  }

  /** Under the same conditions the engine's costs stay below the sentinel. */
  lemma EngineBelowSentinelFromRecurrence(x: Probs, rule: BaseRule)
    requires x.Valid() && KnuthMonotone(x, rule) && BelowSentinel(x, rule)
    ensures EngineBelowSentinel(x, rule)
  {
    forall i, j | 1 <= i <= j <= x.N()
      ensures Engine(x, rule, i, j).cost < Sentinel
    {
      EngineIsRecurrence(x, rule, i, j);
    }
  }

  /**
   * A binary search tree over a range of keys, by key index: Empty is the
   * dummy key of an empty range.
   */
  datatype Shape = Empty | Split(left: Shape, root: int, right: Shape)

  /** s is a search tree over exactly the keys of [i, j]. */
  predicate ValidShape(s: Shape, i: int, j: int)
  {
    match s
    case Empty => j == i - 1
    case Split(l, r, rt) => i <= r <= j && ValidShape(l, i, r - 1) && ValidShape(rt, r + 1, j)
  }

  /** Expected search cost of s by the recurrence: both subtrees, plus one level for everything in [i, j]. */
  function ShapeCost(x: Probs, s: Shape, i: int, j: int): real
    requires InRange(x, i, j) && ValidShape(s, i, j)
  {
    match s
    case Empty => x.q[i - 1]
    case Split(l, r, rt) => ShapeCost(x, l, i, r - 1) + ShapeCost(x, rt, r + 1, j) + Weight(x, i, j)
  }

  /**
   * Expected search cost of s by definition, with the root of s compared at
   * step m of a search (m = depth + 1): each key and each dummy key costs its
   * probability times the number of comparisons that reach it.
   */
  function DepthCost(x: Probs, s: Shape, i: int, j: int, m: real): real
    requires InRange(x, i, j) && ValidShape(s, i, j)
  {
    match s
    case Empty => m * x.q[i - 1]
    case Split(l, r, rt) =>
      m * x.p[r] + DepthCost(x, l, i, r - 1, m + 1.0) + DepthCost(x, rt, r + 1, j, m + 1.0)
  }

  /** Hanging a tree one level deeper costs the weight of its range once more. */
  lemma {:induction false} DepthCostDeeper(x: Probs, s: Shape, i: int, j: int, m: real)
    requires InRange(x, i, j) && ValidShape(s, i, j)
    ensures DepthCost(x, s, i, j, m + 1.0) == DepthCost(x, s, i, j, m) + Weight(x, i, j)
  {
    match s
    case Empty =>
      assert Weight(x, i, j) == x.q[i - 1];
    case Split(l, r, rt) =>
      DepthCostDeeper(x, l, i, r - 1, m + 1.0);
      DepthCostDeeper(x, rt, r + 1, j, m + 1.0);
      WeightSplit(x, i, r, j);
  }

  /** The recurrence cost of a tree is its expected search cost. */
  lemma {:induction false} ShapeCostIsDepthCost(x: Probs, s: Shape, i: int, j: int)
    requires InRange(x, i, j) && ValidShape(s, i, j)
    ensures ShapeCost(x, s, i, j) == DepthCost(x, s, i, j, 1.0)
  {
    match s
    case Empty =>
    case Split(l, r, rt) =>
      ShapeCostIsDepthCost(x, l, i, r - 1);
      ShapeCostIsDepthCost(x, rt, r + 1, j);
      DepthCostDeeper(x, l, i, r - 1, 1.0);
      DepthCostDeeper(x, rt, r + 1, j, 1.0);
      WeightSplit(x, i, r, j);
  }

  /** The tree the best roots describe: BestRoot at the top, and so on down. */
  function OptShape(x: Probs, rule: BaseRule, i: int, j: int): (s: Shape)
    requires InRange(x, i, j)
    ensures ValidShape(s, i, j)
    decreases j - i + 1
  {
    if j < i then Empty
    else
      var r := BestRoot(x, rule, i, j);
      BestRootInRange(x, rule, i, j);
      Split(OptShape(x, rule, i, r - 1), r, OptShape(x, rule, r + 1, j))
  }

  /** Under the Uniform rule, no search tree over [i, j] costs less than Cost. */
  lemma {:induction false} UniformCostIsLowerBound(x: Probs, s: Shape, i: int, j: int)
    requires InRange(x, i, j) && ValidShape(s, i, j)
    ensures Cost(x, Uniform, i, j) <= ShapeCost(x, s, i, j)
  {
    match s
    case Empty =>
    case Split(l, r, rt) =>
      UniformCostIsLowerBound(x, l, i, r - 1);
      UniformCostIsLowerBound(x, rt, r + 1, j);
      ArgMinIsFirstMinimum(x, Uniform, i, j, i, j);
      assert Cost(x, Uniform, i, j) == MinCand(x, Uniform, i, j, i, j);
      assert MinCand(x, Uniform, i, j, i, j) <= Cand(x, Uniform, i, j, r);
  }

  /** Under the Uniform rule, the tree of best roots costs exactly Cost. */
  lemma {:induction false} UniformCostIsAttained(x: Probs, i: int, j: int)
    requires InRange(x, i, j)
    ensures ShapeCost(x, OptShape(x, Uniform, i, j), i, j) == Cost(x, Uniform, i, j)
    decreases j - i + 1
  {
    if i <= j {
      var r := BestRoot(x, Uniform, i, j);
      BestRootInRange(x, Uniform, i, j);
      UniformCostIsAttained(x, i, r - 1);
      UniformCostIsAttained(x, r + 1, j);
      ArgMinIsFirstMinimum(x, Uniform, i, j, i, j);
    }
  }

  /**
   * Under the Uniform rule the tree of best roots is an optimal binary
   * search tree: its expected search cost is no more than any other's.
   */
  lemma UniformTreeIsOptimal(x: Probs, s: Shape)
    requires x.Valid() && ValidShape(s, 1, x.N())
    ensures DepthCost(x, OptShape(x, Uniform, 1, x.N()), 1, x.N(), 1.0) <= DepthCost(x, s, 1, x.N(), 1.0)
  {
    var n := x.N();
    UniformCostIsLowerBound(x, s, 1, n);
    UniformCostIsAttained(x, 1, n);
    ShapeCostIsDepthCost(x, s, 1, n);
    ShapeCostIsDepthCost(x, OptShape(x, Uniform, 1, n), 1, n);
  }

  /** Two keys: p = [_, 1, 1], q = [0, 0, 1]. */
  const TwoKeys: Probs := Probs([0.0, 1.0, 1.0], [0.0, 0.0, 1.0])

  /** The weights of the ranges of TwoKeys. */
  lemma TwoKeysWeights()
    ensures Weight(TwoKeys, 1, 0) == 0.0 && Weight(TwoKeys, 2, 1) == 0.0 && Weight(TwoKeys, 3, 2) == 1.0
    ensures Weight(TwoKeys, 1, 1) == 1.0 && Weight(TwoKeys, 2, 2) == 2.0 && Weight(TwoKeys, 1, 2) == 3.0
  {
  }

  /**
   * With the single-key base case as written, the two roots of TwoKeys tie
   * and key 1 is chosen; the resulting tree costs 6, while the tree with
   * key 2 at the root costs 5.
   */
  lemma SingleKeyWeightPicksWorseRoot()
    ensures BestRoot(TwoKeys, SingleKeyWeight, 1, 2) == 1
    ensures OptShape(TwoKeys, SingleKeyWeight, 1, 2) == Split(Empty, 1, Split(Empty, 2, Empty))
    ensures ShapeCost(TwoKeys, OptShape(TwoKeys, SingleKeyWeight, 1, 2), 1, 2) == 6.0
    ensures ShapeCost(TwoKeys, Split(Split(Empty, 1, Empty), 2, Empty), 1, 2) == 5.0
  {
    var x := TwoKeys;
    TwoKeysWeights();
    assert Cand(x, SingleKeyWeight, 1, 2, 1) == 5.0;
    assert Cand(x, SingleKeyWeight, 1, 2, 2) == 5.0;
    assert BestRoot(x, SingleKeyWeight, 1, 2) == 1;
    assert BestRoot(x, SingleKeyWeight, 2, 2) == 2;
  }

  /** With the corrected base case, key 2 is chosen for TwoKeys, at the optimal cost 5. */
  lemma UniformPicksBetterRoot()
    ensures BestRoot(TwoKeys, Uniform, 1, 2) == 2
    ensures Cost(TwoKeys, Uniform, 1, 2) == 5.0
  {
    var x := TwoKeys;
    TwoKeysWeights();
    assert Cost(x, Uniform, 1, 1) == 1.0 && Cost(x, Uniform, 2, 2) == 3.0;
    assert Cand(x, Uniform, 1, 2, 1) == 6.0;
    assert Cand(x, Uniform, 1, 2, 2) == 5.0;
  }

  /** Four keys: p = [_, 1, 1, 1, 3], q = [0, 0, 1, 0, 0]. */
  const FourKeys: Probs := Probs([0.0, 1.0, 1.0, 1.0, 3.0], [0.0, 0.0, 1.0, 0.0, 0.0])

  /** The weights of the ranges of FourKeys. */
  lemma FourKeysWeights()
    ensures Weight(FourKeys, 1, 0) == 0.0 && Weight(FourKeys, 2, 1) == 0.0 && Weight(FourKeys, 3, 2) == 1.0
    ensures Weight(FourKeys, 4, 3) == 0.0 && Weight(FourKeys, 5, 4) == 0.0
    ensures Weight(FourKeys, 1, 1) == 1.0 && Weight(FourKeys, 2, 2) == 2.0
    ensures Weight(FourKeys, 3, 3) == 2.0 && Weight(FourKeys, 4, 4) == 3.0
    ensures Weight(FourKeys, 1, 2) == 3.0 && Weight(FourKeys, 2, 3) == 3.0 && Weight(FourKeys, 3, 4) == 5.0
    ensures Weight(FourKeys, 1, 3) == 4.0 && Weight(FourKeys, 2, 4) == 6.0 && Weight(FourKeys, 1, 4) == 7.0
  {
  }

  /** The ranges of two keys of FourKeys: the engine and the recurrence agree. */
  lemma FourKeysPairs()
    ensures Engine(FourKeys, SingleKeyWeight, 1, 2) == Entry(5.0, 1)
    ensures Engine(FourKeys, SingleKeyWeight, 2, 3) == Entry(5.0, 2)
    ensures Engine(FourKeys, SingleKeyWeight, 3, 4) == Entry(7.0, 4)
    ensures Cost(FourKeys, SingleKeyWeight, 1, 2) == 5.0 && BestRoot(FourKeys, SingleKeyWeight, 1, 2) == 1
    ensures Cost(FourKeys, SingleKeyWeight, 2, 3) == 5.0 && BestRoot(FourKeys, SingleKeyWeight, 2, 3) == 2
    ensures Cost(FourKeys, SingleKeyWeight, 3, 4) == 7.0 && BestRoot(FourKeys, SingleKeyWeight, 3, 4) == 4
  {
    var x, k := FourKeys, SingleKeyWeight;
    FourKeysWeights();
    assert EngineCand(x, k, 1, 2, 1) == 5.0 && EngineCand(x, k, 1, 2, 2) == 5.0;
    assert EngineCand(x, k, 2, 3, 2) == 5.0 && EngineCand(x, k, 2, 3, 3) == 5.0;
    assert EngineCand(x, k, 3, 4, 3) == 9.0 && EngineCand(x, k, 3, 4, 4) == 7.0;
    assert Cand(x, k, 1, 2, 1) == 5.0 && Cand(x, k, 1, 2, 2) == 5.0;
    assert Cand(x, k, 2, 3, 2) == 5.0 && Cand(x, k, 2, 3, 3) == 5.0;
    assert Cand(x, k, 3, 4, 3) == 9.0 && Cand(x, k, 3, 4, 4) == 7.0;
  }

  /** The ranges of three keys of FourKeys: the engine and the recurrence still agree. */
  lemma FourKeysTriples()
    ensures Engine(FourKeys, SingleKeyWeight, 1, 3) == Entry(7.0, 2)
    ensures Engine(FourKeys, SingleKeyWeight, 2, 4) == Entry(11.0, 3)
    ensures Cost(FourKeys, SingleKeyWeight, 1, 3) == 7.0 && BestRoot(FourKeys, SingleKeyWeight, 1, 3) == 2
    ensures Cost(FourKeys, SingleKeyWeight, 2, 4) == 11.0 && BestRoot(FourKeys, SingleKeyWeight, 2, 4) == 3
  {
    var x, k := FourKeys, SingleKeyWeight;
    FourKeysWeights();
    FourKeysPairs();
    assert EngineCand(x, k, 1, 3, 1) == 9.0 && EngineCand(x, k, 1, 3, 2) == 7.0;
    assert EngineCand(x, k, 2, 4, 2) == 13.0 && EngineCand(x, k, 2, 4, 3) == 11.0 && EngineCand(x, k, 2, 4, 4) == 11.0;
    assert Cand(x, k, 1, 3, 1) == 9.0 && Cand(x, k, 1, 3, 2) == 7.0 && Cand(x, k, 1, 3, 3) == 9.0;
    assert Cand(x, k, 2, 4, 2) == 13.0 && Cand(x, k, 2, 4, 3) == 11.0 && Cand(x, k, 2, 4, 4) == 11.0;
  }

  /**
   * With the single-key base case as written, best roots are not monotone on
   * FourKeys: the best root of [1, 4] is 4, beyond the best root 3 of
   * [2, 4]. The engine searches only roots 2..3 there and stores cost 15 and
   * root 2, while the recurrence's least cost is 14, at root 4. Every
   * shorter range is monotone, so up to [1, 4] the engine holds the
   * recurrence's values.
   */
  lemma SingleKeyWeightWindowMissesMinimum()
    ensures Engine(FourKeys, SingleKeyWeight, 1, 4) == Entry(15.0, 2)
    ensures Cost(FourKeys, SingleKeyWeight, 1, 4) == 14.0 && BestRoot(FourKeys, SingleKeyWeight, 1, 4) == 4
    ensures !KnuthMonotone(FourKeys, SingleKeyWeight)
    ensures KnuthAt(FourKeys, SingleKeyWeight, 1, 2) && KnuthAt(FourKeys, SingleKeyWeight, 2, 3)
    ensures KnuthAt(FourKeys, SingleKeyWeight, 3, 4) && KnuthAt(FourKeys, SingleKeyWeight, 1, 3)
    ensures KnuthAt(FourKeys, SingleKeyWeight, 2, 4)
  {
    var x, k := FourKeys, SingleKeyWeight;
    FourKeysWeights();
    FourKeysPairs();
    FourKeysTriples();
    assert EngineCand(x, k, 1, 4, 2) == 15.0 && EngineCand(x, k, 1, 4, 3) == 15.0;
    assert Cand(x, k, 1, 4, 1) == 18.0 && Cand(x, k, 1, 4, 2) == 15.0;
    assert Cand(x, k, 1, 4, 3) == 15.0 && Cand(x, k, 1, 4, 4) == 14.0;
    assert !KnuthAt(x, k, 1, 4);
    BaseCases(x, k, 1);
    BaseCases(x, k, 2);
    BaseCases(x, k, 3);
    BaseCases(x, k, 4);
  }
}
