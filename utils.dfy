/**
 * Utils.h: the label comparator, the lockstep bubble sort of labels and
 * success probabilities, the reference swap and the table constructor.
 */
module Utils {
  import opened Vectors

  // ---------------------------------------------------------------------------
  // isNumeric and compareStrings
  // ---------------------------------------------------------------------------

  predicate IsDigit(c: char)
  {
    '0' <= c <= '9'
  }

  /** The scan of isNumeric: every character is a digit (true for the empty string). */
  function AllDigits(s: string): (b: bool)
    ensures b <==> forall i :: 0 <= i < |s| ==> IsDigit(s[i])
  {
    if s == [] then true
    else IsDigit(s[0]) && AllDigits(s[1..])
  }

  /** isNumeric: non-empty and made only of digits. */
  function IsNumeric(s: string): (b: bool)
    ensures b <==> |s| > 0 && forall i :: 0 <= i < |s| ==> IsDigit(s[i])
  {
    AllDigits(s) && |s| != 0
  }

  /** The value std::stoll gives a string of decimal digits (overflow is not modelled). */
  function DecimalValue(s: string): nat
    requires AllDigits(s)
  {
    if s == [] then 0
    else 10 * DecimalValue(s[..|s| - 1]) + (s[|s| - 1] as int - '0' as int)
  }

  /** std::string operator<: lexicographic order of the character codes. */
  predicate LexLess(a: string, b: string)
  {
    if a == [] then b != []
    else if b == [] then false
    else if a[0] != b[0] then a[0] < b[0]
    else LexLess(a[1..], b[1..])
  }

  /** compareStrings: by integer value when both are numeric, otherwise lexicographically. */
  function CompareStrings(a: string, b: string): (r: int)
    ensures r == -1 || r == 0 || r == 1
    ensures IsNumeric(a) && IsNumeric(b) ==>
      (r == -1 <==> DecimalValue(a) < DecimalValue(b)) &&
      (r == 1 <==> DecimalValue(a) > DecimalValue(b))
    ensures !(IsNumeric(a) && IsNumeric(b)) ==>
      (r == -1 <==> LexLess(a, b)) && (r == 1 <==> LexLess(b, a))
  {
    LexLessAsymmetric(a, b);
    if IsNumeric(a) && IsNumeric(b) then
      var x, y := DecimalValue(a), DecimalValue(b);
      if x < y then -1 else if x > y then 1 else 0
    else if LexLess(a, b) then -1
    else if LexLess(b, a) then 1
    else 0
  }

  lemma {:induction false} LexLessAsymmetric(a: string, b: string)
    ensures !(LexLess(a, b) && LexLess(b, a))
  {
    if a != [] && b != [] && a[0] == b[0] {
      LexLessAsymmetric(a[1..], b[1..]);
    }
  }

  lemma {:induction false} LexLessTotal(a: string, b: string)
    requires a != b
    ensures LexLess(a, b) || LexLess(b, a)
  {
    if a != [] && b != [] && a[0] == b[0] {
      assert a == [a[0]] + a[1..] && b == [b[0]] + b[1..];
      LexLessTotal(a[1..], b[1..]);
    }
  }

  lemma {:induction false} LexLessTransitive(a: string, b: string, c: string)
    requires LexLess(a, b) && LexLess(b, c)
    ensures LexLess(a, c)
  {
    if a != [] && b != [] && c != [] && a[0] == b[0] && b[0] == c[0] {
      LexLessTransitive(a[1..], b[1..], c[1..]);
    }
  }

  /** compareStrings(a, b) == -compareStrings(b, a). */
  lemma CompareAntisymmetric(a: string, b: string)
    ensures CompareStrings(a, b) == -CompareStrings(b, a)
  {
    LexLessAsymmetric(a, b);
  }

  /** Only equal strings compare equal when one of them is not numeric. */
  lemma CompareZeroNonNumeric(a: string, b: string)
    requires !(IsNumeric(a) && IsNumeric(b))
    ensures CompareStrings(a, b) == 0 <==> a == b
  {
    if a != b {
      LexLessTotal(a, b);
    }
  }

  /** Two numeric labels with the same value compare equal even when they differ: "01" and "1". */
  lemma LeadingZeroEqual()
    ensures CompareStrings("01", "1") == 0
  {
    assert "01"[..1] == "0";
    assert "0"[..0] == "";
    assert "1"[..0] == "";
    assert DecimalValue("01") == 1;
    assert DecimalValue("1") == 1;
  }

  /**
   * compareStrings is not transitive once numeric and non-numeric labels
   * mix: "2" < "10" by value, "10" < "1a" and "1a" < "2" lexicographically.
   */
  lemma CompareNotTransitive()
    ensures CompareStrings("2", "10") == -1
    ensures CompareStrings("10", "1a") == -1
    ensures CompareStrings("1a", "2") == -1
  {
    assert "10"[..1] == "1";
    assert "1"[..0] == "";
    assert "2"[..0] == "";
    assert DecimalValue("10") == 10;
    assert DecimalValue("2") == 2;
    assert !IsNumeric("1a") by { assert !IsDigit("1a"[1]); }
    assert LexLess("10", "1a") by { assert "10"[1..] == "0" && "1a"[1..] == "a"; }
    assert LexLess("1a", "2");
  }

  /** "a is not after b" in the comparator's sense. */
  predicate NotAfter(a: string, b: string)
  {
    CompareStrings(a, b) != 1
  }

  /** The comparator's order is transitive on the labels occurring in s. */
  ghost predicate TransitiveOn(s: seq<string>)
  {
    forall x, y, z | x in s && y in s && z in s :: NotAfter(x, y) && NotAfter(y, z) ==> NotAfter(x, z)
  }

  lemma NotAfterTotal(a: string, b: string)
    ensures NotAfter(a, b) || NotAfter(b, a)
  {
    CompareAntisymmetric(a, b);
  }

  lemma NotAfterTransitive(s: seq<string>, x: string, y: string, z: string)
    requires TransitiveOn(s) && x in s && y in s && z in s
    requires NotAfter(x, y) && NotAfter(y, z)
    ensures NotAfter(x, z)
  {
  }

  /** On labels that are all numeric the comparator is a total order. */
  lemma AllNumericTransitive(s: seq<string>)
    requires forall i :: 0 <= i < |s| ==> IsNumeric(s[i])
    ensures TransitiveOn(s)
  {
  }

  /** On labels of which none is numeric the comparator is a total order. */
  lemma NoneNumericTransitive(s: seq<string>)
    requires forall i :: 0 <= i < |s| ==> !IsNumeric(s[i])
    ensures TransitiveOn(s)
  {
    forall x, y, z | x in s && y in s && z in s && NotAfter(x, y) && NotAfter(y, z)
      ensures NotAfter(x, z)
    {
      CompareZeroNonNumeric(x, y);
      CompareZeroNonNumeric(y, z);
      if LexLess(x, y) && LexLess(y, z) {
        LexLessTransitive(x, y, z);
      }
      LexLessAsymmetric(x, z);
    }
  }

  /** The same labels occur in a sequence and in any of its permutations. */
  lemma TransitiveOnPermutation(s: seq<string>, t: seq<string>)
    requires multiset(s) == multiset(t) && TransitiveOn(s)
    ensures TransitiveOn(t)
  {
    forall x | x in t ensures x in s {
      assert x in multiset(t);
    }
  }

  // ---------------------------------------------------------------------------
  // _swap and create2D
  // ---------------------------------------------------------------------------

  /** _swap(a[i], a[j]): exchanges the two elements and nothing else. */
  method Swap<T>(a: array<T>, i: nat, j: nat)
    requires i < a.Length && j < a.Length
    modifies a
    ensures a[..] == old(a[..])[i := old(a[j])][j := old(a[i])]
  {
    var temp := a[i];
    a[i] := a[j];
    a[j] := temp;
  }

  /**
   * create2D(rows, cols): a rows x cols table whose every cell is `zero`
   * (each row is resized, and resize writes T() into every new slot).
   */
  method Create2D<T(0)>(rows: nat, cols: nat, zero: T) returns (t: array2<T>)
    ensures fresh(t) && t.Length0 == rows && t.Length1 == cols
    ensures forall i, j :: 0 <= i < rows && 0 <= j < cols ==> t[i, j] == zero
  {
    t := new T[rows, cols];
    var i := 0;
    while i < rows
      invariant 0 <= i <= rows
      invariant forall a, b :: 0 <= a < i && 0 <= b < cols ==> t[a, b] == zero
    {
      var j := 0;
      while j < cols
        invariant 0 <= j <= cols
        invariant forall a, b :: 0 <= a < i && 0 <= b < cols ==> t[a, b] == zero
        invariant forall b :: 0 <= b < j ==> t[i, b] == zero
      {
        t[i, j] := zero;
        j := j + 1;
      }
      i := i + 1;
    }
  }

  // ---------------------------------------------------------------------------
  // sortInputs
  // ---------------------------------------------------------------------------

  /** labels[k] belongs with P[k + 1]: the pairing that sortInputs keeps. */
  ghost function Pairs(labels: seq<string>, p: seq<real>): (s: seq<(string, real)>)
    requires |p| > |labels|
    ensures |s| == |labels|
    ensures forall k :: 0 <= k < |labels| ==> s[k] == (labels[k], p[k + 1])
  {
    seq(|labels|, k requires 0 <= k < |labels| => (labels[k], p[k + 1]))
  }

  /** No adjacent pair of labels is out of order. */
  predicate AdjacentSorted(s: seq<string>)
  {
    forall k :: 0 <= k < |s| - 1 ==> CompareStrings(s[k], s[k + 1]) != 1
  }

  /** s with the neighbours at j and j + 1 exchanged. */
  function SwapNext<T>(s: seq<T>, j: nat): (r: seq<T>)
    requires j + 1 < |s|
    ensures |r| == |s|
  {
    s[j := s[j + 1]][j + 1 := s[j]]
  }

  /** Exchanging labels j, j+1 together with P[j+1], P[j+2] permutes the labels and the pairs. */
  lemma {:induction false} SwapNextKeepsPairs(ls: seq<string>, ps: seq<real>, j: nat)
    requires j + 1 < |ls| && |ls| < |ps|
    ensures multiset(SwapNext(ls, j)) == multiset(ls)
    ensures Pairs(SwapNext(ls, j), SwapNext(ps, j + 1)) == SwapNext(Pairs(ls, ps), j)
    ensures multiset(Pairs(SwapNext(ls, j), SwapNext(ps, j + 1))) == multiset(Pairs(ls, ps))
  {
    var pairs := Pairs(ls, ps);
    assert multiset(SwapNext(ls, j)) == multiset(ls);
    assert multiset(SwapNext(pairs, j)) == multiset(pairs);
  }

  /** The two _swap calls of one step of sortInputs. */
  method SwapNeighbours(la: array<string>, pa: array<real>, j: nat)
    requires j + 1 < la.Length && j + 2 < pa.Length
    modifies la, pa
    ensures la[..] == SwapNext(old(la[..]), j)
    ensures pa[..] == SwapNext(old(pa[..]), j + 1)
  {
    Swap(la, j, j + 1);
    Swap(pa, j + 1, j + 2);
  }

  /** Sizes, and what a pass over labels[0..m] leaves in place. */
  ghost predicate PassFrame(ls: seq<string>, ps: seq<real>, j: nat, m: nat, n: nat, ls1: seq<string>, ps1: seq<real>)
  {
    j <= m < n <= |ls| && n < |ps| && |ls1| == |ls| && |ps1| == |ps| &&
    (forall k :: m < k < |ls| ==> ls[k] == ls1[k]) &&
    ps[0] == ps1[0] &&
    (forall k :: m + 2 <= k < |ps| ==> ps[k] == ps1[k])
  }

  /** The first n labels, and their pairs with P, are a permutation of what they were. */
  ghost predicate SamePairs(ls: seq<string>, ps: seq<real>, n: nat, ls1: seq<string>, ps1: seq<real>)
  {
    n <= |ls| && n < |ps| && n <= |ls1| && n < |ps1| &&
    multiset(ls[..n]) == multiset(ls1[..n]) &&
    multiset(Pairs(ls[..n], ps)) == multiset(Pairs(ls1[..n], ps1))
  }

  /** No label among the first m + 1 is after bound. */
  ghost predicate BoundedBy(ls: seq<string>, m: nat, bound: string)
  {
    m < |ls| && forall k :: 0 <= k <= m ==> NotAfter(ls[k], bound)
  }

  /** No label before j is after label j. */
  ghost predicate MaxAt(ls: seq<string>, j: nat)
  {
    j < |ls| && forall k :: 0 <= k < j ==> NotAfter(ls[k], ls[j])
  }

  /**
   * What the inner loop of sortInputs keeps after j steps of a pass over
   * labels[0..m], for labels ls and probabilities ps that were ls1 and ps1
   * when the pass began.
   */
  ghost predicate PassInvariant(ls: seq<string>, ps: seq<real>, j: nat, m: nat, n: nat,
                                bounded: bool, bound: string, ls1: seq<string>, ps1: seq<real>)
  {
    PassFrame(ls, ps, j, m, n, ls1, ps1) &&
    SamePairs(ls, ps, n, ls1, ps1) &&
    (bounded ==> BoundedBy(ls, m, bound)) &&
    (n <= |ls1| && TransitiveOn(ls1[..n]) ==> MaxAt(ls, j))
  }

  /** Swapping neighbours j, j + 1 inside the first n labels keeps both multisets of the pass invariant. */
  lemma SwapKeepsPairs(ls: seq<string>, ps: seq<real>, j: nat, n: nat, ls1: seq<string>, ps1: seq<real>)
    requires j + 1 < n && SamePairs(ls, ps, n, ls1, ps1)
    ensures SamePairs(SwapNext(ls, j), SwapNext(ps, j + 1), n, ls1, ps1)
  {
    assert SwapNext(ls, j)[..n] == SwapNext(ls[..n], j);
    SwapNextKeepsPairs(ls[..n], ps, j);
  }

  /** Swapping neighbours j, j + 1 with j < m keeps the frame of the pass. */
  lemma SwapKeepsFrame(ls: seq<string>, ps: seq<real>, j: nat, m: nat, n: nat, ls1: seq<string>, ps1: seq<real>)
    requires j < m && PassFrame(ls, ps, j, m, n, ls1, ps1)
    ensures PassFrame(SwapNext(ls, j), SwapNext(ps, j + 1), j + 1, m, n, ls1, ps1)
  {
  }

  /** Swapping neighbours j, j + 1 with j < m keeps the bound on the first m + 1 labels. */
  lemma SwapKeepsBound(ls: seq<string>, j: nat, m: nat, bound: string)
    requires j < m && BoundedBy(ls, m, bound)
    ensures BoundedBy(SwapNext(ls, j), m, bound)
  {
    var ls' := SwapNext(ls, j);
    forall k | 0 <= k <= m ensures NotAfter(ls'[k], bound) {
      assert ls'[k] == ls[k] || ls'[k] == ls[j] || ls'[k] == ls[j + 1];
    }
  }

  /** Moving the larger of labels j, j + 1 to j + 1 moves the maximum along. */
  lemma SwapMovesMax(ls: seq<string>, j: nat)
    requires j + 1 < |ls| && MaxAt(ls, j) && CompareStrings(ls[j], ls[j + 1]) == 1
    ensures MaxAt(SwapNext(ls, j), j + 1)
  {
    var ls' := SwapNext(ls, j);
    CompareAntisymmetric(ls[j], ls[j + 1]);
    forall k | 0 <= k < j + 1 ensures NotAfter(ls'[k], ls'[j + 1]) {
      if k < j {
        assert ls'[k] == ls[k];
      }
    }
  }

  /** A step that finds labels j, j + 1 out of order and swaps them keeps the pass invariant. */
  lemma SwapStep(ls: seq<string>, ps: seq<real>, j: nat, m: nat, n: nat,
                 bounded: bool, bound: string, ls1: seq<string>, ps1: seq<real>)
    requires j < m && PassInvariant(ls, ps, j, m, n, bounded, bound, ls1, ps1)
    requires CompareStrings(ls[j], ls[j + 1]) == 1
    ensures PassInvariant(SwapNext(ls, j), SwapNext(ps, j + 1), j + 1, m, n, bounded, bound, ls1, ps1)
  {
    SwapKeepsFrame(ls, ps, j, m, n, ls1, ps1);
    SwapKeepsPairs(ls, ps, j, n, ls1, ps1);
    if bounded {
      SwapKeepsBound(ls, j, m, bound);
    }
    if TransitiveOn(ls1[..n]) {
      SwapMovesMax(ls, j);
    }
  }

  /** A step that finds labels j, j + 1 in order keeps the pass invariant. */
  lemma KeepStep(ls: seq<string>, ps: seq<real>, j: nat, m: nat, n: nat,
                 bounded: bool, bound: string, ls1: seq<string>, ps1: seq<real>)
    requires j < m && PassInvariant(ls, ps, j, m, n, bounded, bound, ls1, ps1)
    requires CompareStrings(ls[j], ls[j + 1]) != 1
    ensures PassInvariant(ls, ps, j + 1, m, n, bounded, bound, ls1, ps1)
  {
    if TransitiveOn(ls1[..n]) {
      TransitiveOnPermutation(ls1[..n], ls[..n]);
      forall k | 0 <= k < j ensures NotAfter(ls[k], ls[j + 1]) {
        assert ls[k] == ls[..n][k] && ls[j] == ls[..n][j] && ls[j + 1] == ls[..n][j + 1];
        NotAfterTransitive(ls[..n], ls[k], ls[j], ls[j + 1]);
      }
    }
  }

  /**
   * The inner loop of sortInputs, one pass over labels[0..m]: compares
   * neighbours j and j + 1 for j < m and swaps them, together with
   * P[j + 1] and P[j + 2], when the left one is after the right one.
   */
  method BubblePass(la: array<string>, pa: array<real>, m: nat, ghost n: nat, ghost bounded: bool, ghost bound: string)
    requires PassInvariant(la[..], pa[..], 0, m, n, bounded, bound, la[..], pa[..])
    modifies la, pa
    ensures PassInvariant(la[..], pa[..], m, m, n, bounded, bound, old(la[..]), old(pa[..]))
  {
    ghost var ls1, ps1 := la[..], pa[..];
    var j := 0;
    while j < m
      invariant 0 <= j <= m
      invariant PassInvariant(la[..], pa[..], j, m, n, bounded, bound, ls1, ps1)
    {
      if CompareStrings(la[j], la[j + 1]) == 1 {
        SwapStep(la[..], pa[..], j, m, n, bounded, bound, ls1, ps1);
        SwapNeighbours(la, pa, j);
      } else {
        KeepStep(la[..], pa[..], j, m, n, bounded, bound, ls1, ps1);
      }
      j := j + 1;
    }
  }

  /** What the outer loop of sortInputs keeps after i passes, for labels that were ls0 and ps0. */
  ghost predicate SortInvariant(ls: seq<string>, ps: seq<real>, i: nat, n: nat, ls0: seq<string>, ps0: seq<real>)
  {
    n <= |ls| && n < |ps| && |ls0| == |ls| && |ps0| == |ps| &&
    (n == 0 ==> i == 0) && (n > 0 ==> i <= n - 1) &&
    (forall k :: n <= k < |ls| ==> ls[k] == ls0[k]) &&
    ps[0] == ps0[0] &&
    (forall k :: n + 1 <= k < |ps| ==> ps[k] == ps0[k]) &&
    multiset(ls[..n]) == multiset(ls0[..n]) &&
    multiset(Pairs(ls[..n], ps)) == multiset(Pairs(ls0[..n], ps0)) &&
    (TransitiveOn(ls0[..n]) ==>
      (forall k :: n - i <= k < n - 1 ==> NotAfter(ls[k], ls[k + 1])) &&
      (0 < i ==> forall k :: 0 <= k < n - i ==> NotAfter(ls[k], ls[n - i])))
  }

  /** The bound a pass starts from: the first label of the sorted suffix. */
  function PassBound(ls: seq<string>, i: nat, n: nat): string
    requires 0 < i <= n <= |ls|
  {
    ls[n - i]
  }

  /** A pass that starts from the outer invariant after i passes ends in it after i + 1. */
  lemma {:induction false} AfterPass(ls1: seq<string>, ps1: seq<real>, ls: seq<string>, ps: seq<real>,
                                     i: nat, n: nat, ls0: seq<string>, ps0: seq<real>)
    requires SortInvariant(ls1, ps1, i, n, ls0, ps0) && i + 1 < n
    requires PassInvariant(ls, ps, n - i - 1, n - i - 1, n, TransitiveOn(ls0[..n]) && 0 < i,
                           if 0 < i then PassBound(ls1, i, n) else "", ls1, ps1)
    ensures SortInvariant(ls, ps, i + 1, n, ls0, ps0)
  {
    var m := n - i - 1;
    if TransitiveOn(ls0[..n]) {
      TransitiveOnPermutation(ls0[..n], ls1[..n]);
      forall k | m <= k < n - 1 ensures NotAfter(ls[k], ls[k + 1]) {
        if k == m {
          assert ls[m + 1] == ls1[m + 1];
        }
      }
    }
  }

  /** A pass can start from the outer invariant. */
  lemma PassStart(ls: seq<string>, ps: seq<real>, i: nat, n: nat, ls0: seq<string>, ps0: seq<real>)
    requires SortInvariant(ls, ps, i, n, ls0, ps0) && i + 1 < n
    ensures PassInvariant(ls, ps, 0, n - i - 1, n, TransitiveOn(ls0[..n]) && 0 < i,
                          if 0 < i then PassBound(ls, i, n) else "", ls, ps)
  {
  }

  /** When the outer loop is done, no neighbours are out of order. */
  lemma SortedAtEnd(ls: seq<string>, ps: seq<real>, n: nat, ls0: seq<string>, ps0: seq<real>)
    requires n > 0 && SortInvariant(ls, ps, n - 1, n, ls0, ps0) && TransitiveOn(ls0[..n])
    ensures AdjacentSorted(ls[..n])
  {
  }

  /** Before the first pass the outer invariant holds. */
  lemma SortStart(ls: seq<string>, ps: seq<real>, n: nat)
    requires n <= |ls| && n < |ps|
    ensures SortInvariant(ls, ps, 0, n, ls, ps)
  {
  }

  /** Reading the post-state of sortInputs off the outer invariant. */
  lemma ContentsAfterSort(ls: seq<string>, ps: seq<real>, i: nat, n: nat, ls0: seq<string>, ps0: seq<real>, plen: nat)
    requires SortInvariant(ls, ps, i, n, ls0, ps0) && (n == 0 || i == n - 1) && n < plen <= |ps|
    ensures multiset(ls[..n]) == multiset(ls0[..n])
    ensures multiset(Pairs(ls[..n], ps[..plen])) == multiset(Pairs(ls0[..n], ps0[..plen]))
    ensures ps[..plen][0] == ps0[..plen][0]
    ensures ps[..plen][n + 1..] == ps0[..plen][n + 1..]
    ensures TransitiveOn(ls0[..n]) ==> AdjacentSorted(ls[..n])
  {
    assert Pairs(ls[..n], ps[..plen]) == Pairs(ls[..n], ps);
    assert Pairs(ls0[..n], ps0[..plen]) == Pairs(ls0[..n], ps0);
    if TransitiveOn(ls0[..n]) && n > 0 {
      SortedAtEnd(ls, ps, n, ls0, ps0);
    }
  }

  /**
   * The passes of sortInputs over the first n labels and the probabilities
   * beside them, of which the first plen are in use.
   */
  method SortPrefix(la: array<string>, pa: array<real>, n: nat, ghost plen: nat)
    requires n < plen <= pa.Length && n <= la.Length
    modifies la, pa
    ensures multiset(la[..n]) == multiset(old(la[..n]))
    ensures multiset(Pairs(la[..n], pa[..plen])) == multiset(Pairs(old(la[..n]), old(pa[..plen])))
    ensures pa[..plen][0] == old(pa[..plen][0])
    ensures pa[..plen][n + 1..] == old(pa[..plen][n + 1..])
    ensures TransitiveOn(old(la[..n])) ==> AdjacentSorted(la[..n])
  {
    ghost var ls0, ps0 := la[..], pa[..];
    SortStart(ls0, ps0, n);
    var i := 0;
    while i + 1 < n
      invariant SortInvariant(la[..], pa[..], i, n, ls0, ps0)
    {
      ghost var ls1, ps1 := la[..], pa[..];
      PassStart(ls1, ps1, i, n, ls0, ps0);
      BubblePass(la, pa, n - i - 1, n, TransitiveOn(ls0[..n]) && 0 < i, if 0 < i then PassBound(ls1, i, n) else "");
      AfterPass(ls1, ps1, la[..], pa[..], i, n, ls0, ps0);
      i := i + 1;
    }
    ContentsAfterSort(la[..], pa[..], i, n, ls0, ps0, plen);
    assert ls0[..n] == old(la[..n]) && ps0[..plen] == old(pa[..plen]);
  }

  /**
   * sortInputs: bubble-sorts the labels by compareStrings and moves
   * P[k + 1] along with labels[k]. P needs one more slot than labels.
   */
  method SortInputs(labels: Vector<string>, p: Vector<real>)
    requires labels.Valid() && p.Valid()
    requires p.Size() >= labels.Size() + 1
    modifies labels.data, p.data
    ensures labels.Valid() && p.Valid()
    ensures |labels.Contents()| == old(|labels.Contents()|) && |p.Contents()| == old(|p.Contents()|)
    ensures multiset(labels.Contents()) == multiset(old(labels.Contents()))
    ensures multiset(Pairs(labels.Contents(), p.Contents())) == multiset(Pairs(old(labels.Contents()), old(p.Contents())))
    ensures p.Contents()[0] == old(p.Contents()[0])
    ensures p.Contents()[labels.len + 1..] == old(p.Contents()[labels.len + 1..])
    ensures TransitiveOn(old(labels.Contents())) ==> AdjacentSorted(labels.Contents())
  {
    SortPrefix(labels.data, p.data, labels.len, p.len);
  }
}
