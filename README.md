# Optimal binary search tree engine, modelled in Dafny

This project models the computational core of an optimal-binary-search-tree
visualiser. Given success probabilities `p[1..n]` for keys and failure
probabilities `q[0..n]` for the gaps between them ("dummy keys"), the engine
works in four stages:

1. It fills three `(n + 2) x (n + 2)` tables: weight `W`, expected cost `E`
   and best root `Root`.
2. It uses the dynamic programme of Knuth's algorithm, trying for each range
   only the roots between those of the two ranges one key shorter.
3. It rebuilds the tree from the root table.
4. It hands the tree to a small tree container that can copy, move and
   analyse it (height, node count, leaf count, average depth, a sideways
   display).

Around the engine sit:

- a hand-written growable array;
- a label comparator (numeric labels by value, others lexicographically);
- the bubble sort that keeps the labels and their probabilities in step when
  a node is added.

The model has five modules, one per source file:

- **`Trees`** (`tree.dfy`, Tree.h). The node structure is the datatype
  `TreeNode`. The container is the class `Tree`, whose `root` field the copy
  and move operations reassign.
  - The recursive analyses are functions.
  - Their relations are lemmas:
    - height and node count bound each other;
    - the display lists the keys in reverse in-order;
    - the average depth lies between 0 and height - 1.
- **`Vectors`** (`vector.dfy`, Vector.h). The class `Vector<T>` keeps a buffer
  `data: array<T>`, a capacity `cap` and a length `len`.
  - Its object invariant `Valid()` ties `cap` to the allocated length.
  - Every loop of Vector.h stays a loop, proved against `Contents()`.
  - A three-number `Layout` model shows how Vector.h's copy constructor and
    copy assignment break that invariant.
- **`Utils`** (`utils.dfy`, Utils.h). It holds:
  - `IsNumeric` and `CompareStrings`, with their order-theoretic properties
    and their failures;
  - the reference swap;
  - the table constructor;
  - `SortInputs`, the in-place bubble sort over the two vectors' buffers, proved
    to permute the labels, keep every label paired with its probability,
    and sort when the comparator is transitive on the labels.
- **`ObstSpec`** (`obst_spec.dfy`). Pure functions:
  - the recurrences: weight, cost and the first best root over all roots
    of a range (`Weight`, `Cost`, `BestRoot`);
  - `Engine`, what the engine as written stores for a range: its search
    runs only over the window between the roots it stored for the two
    ranges one key shorter, as the strict-`<` loop `EngineScan`;
  - the link between the two: they agree when best roots are monotone
    (Knuth's condition), and a four-key input on which they do not;
  - search-tree shapes, their expected search cost, and the optimality
    theorem for the corrected base case.
- **`Obst`** (`obst.dfy`, OBST.h).
  - The table-filling methods over `array2` tables, proved to leave every
    cell equal to `Engine`, and to fail exactly when a search would start
    from root 0.
  - The tree reconstruction, proved to yield the tree of the engine's roots
    over the labels in order, and the tree of best roots when the engine
    agrees with the recurrence.
  - The entry point and `addNode`.

### The base case of single-key ranges

OBST.h line 40 sets the cost of a one-key range `[a, a]` to its weight
`W[a][a]`. The empty ranges beside it cost `q[a - 1]` and `q[a]`, and every
longer range costs `E[left] + E[right] + W`. The consistent cost of `[a, a]`
is therefore `q[a - 1] + q[a] + W[a][a]`. The comment at that line states the
weight rule, and the code follows it.

The model keeps both rules as a parameter `rule: BaseRule`:

- **`SingleKeyWeight`** is the engine as written.
- **`Uniform`** is the corrected rule. Under it the tree of best roots is
  proved optimal (`ObstSpec.UniformTreeIsOptimal`). The engine builds that
  tree whenever best roots are monotone, which Knuth's theorem gives for
  this rule, and costs stay below the sentinel (`Obst.GenerateTheOBST`).

Every table and search operation of `Obst` takes `rule`. The table filling is proved to
compute `Engine` under both rules, on every input with valid lengths. See
"## Findings".

### Comment versus code in computeOBST

The comment of `computeOBST` (OBST.h:51) says "it tries every possible root".
The code (OBST.h:67) tries only the roots from `Root[i][j-1]` to
`Root[i+1][j]`. The model follows the code: `Engine` is defined by that
window, and `Obst.ComputeOBST` needs no precondition on the probabilities.

The window finds the recurrence's minimum when best roots are monotone
(`ObstSpec.KnuthMonotone`) and every cost stays below the sentinel
(`ObstSpec.BelowSentinel`). `ObstSpec.EngineIsRecurrence` proves that the
engine then stores the cost and the first best root of every range. Knuth
proved monotonicity for the consistent cost rule, `Uniform`. Under the rule
as written it fails: `ObstSpec.SingleKeyWeightWindowMissesMinimum` gives an
input on which the engine stores a cost of 15 for the range [1, 4] while
the recurrence's minimum is 14.

## Model

| member | source | states |
|---|---|---|
| Trees.Height | Tree.h:52-59 | the height is 0 exactly for the empty tree |
| Trees.CountNodes | Tree.h:61-66 | 0 for the empty tree, otherwise one for the node plus the counts of both subtrees; Trees.CountNodesIsInOrderLength ties it to the in-order walk |
| Trees.CountNodesIsInOrderLength | Tree.h:61-66 | the node count equals the length of the in-order key sequence |
| Trees.CountLeafNodes | Tree.h:68-75 | there are never more leaves than nodes, and a non-empty tree has at least one leaf |
| Trees.CopySubtree | Tree.h:40-49 | the deep copy has the same shape and keys as the tree it copies |
| Trees.DisplayIsReversedInOrder | Tree.h:18-28 | the printed keys are the in-order sequence reversed, one line per node |
| Trees.DisplayDepthsAtLeast | Tree.h:18-28 | no printed line is indented less than the depth the call started from |
| Trees.HeightBounds | Tree.h:52-66 | the height is at most the node count, which is at most 2^height - 1 |
| Trees.SumOfDepthsShift | Tree.h:77-82 | starting one level deeper adds exactly one per node to the depth sum |
| Trees.SumOfDepthsBound | Tree.h:77-82 | the depth sum is at most count * (start depth + height - 1) |
| Trees.SumOfDepthsNonNegative | Tree.h:77-82 | from a non-negative start depth the depth sum is non-negative |
| Trees.SumOfDepths | Tree.h:77-82 | 0 for the empty tree, otherwise the node's depth plus the sums of both subtrees started one level deeper; its shift, bound and sign are the three lemmas above |
| Trees.DisplayTreeHelper | Tree.h:18-28 | the printed lines as (depth, key) pairs: the right subtree one level deeper, then the node's own line, then the left subtree one level deeper; the key order and depths are the two lemmas above |
| Trees.AverageDepth | Tree.h:174-178 | 0 for the empty tree; otherwise avg * count equals the depth sum from 0, and 0 <= avg <= height - 1 |
| Trees.AverageDepthBounds | Tree.h:174-178 | a non-empty tree has a positive node count and a mean depth between 0 and height - 1 |
| Trees.Tree.constructor | Tree.h:86 | a new tree is empty |
| Trees.Tree.Copy | Tree.h:94 | the copy holds the same nodes as the source |
| Trees.Tree.Move | Tree.h:108-111 | the new tree takes the source's nodes and the source becomes empty |
| Trees.Tree.CopyAssign | Tree.h:97-105 | afterwards this tree holds the other's nodes and the other is unchanged, including self-assignment |
| Trees.Tree.Assign | Tree.h:140-143 | the same effect as copy assignment |
| Trees.Tree.MoveAssign | Tree.h:114-123 | self-assignment changes nothing; otherwise the nodes transfer and the source becomes empty |
| Trees.Tree.SetRoot | Tree.h:125-128 | the tree now holds the given nodes |
| Trees.Tree.GetRoot | Tree.h:130-133 | the nodes the tree holds, read without change |
| Trees.Tree.IsEmpty | Tree.h:180-183 | true exactly when the tree has no nodes |
| Trees.Tree.GetHeight | Tree.h:159-162 | the height bounds the node count from below and its power of two bounds it from above |
| Trees.Tree.GetTotalNodes | Tree.h:164-167 | equals the length of the in-order walk |
| Trees.Tree.GetLeafNodes | Tree.h:169-172 | at most the node count, and at least 1 for a non-empty tree |
| Trees.Tree.GetAverageDepth | Tree.h:174-178 | the average depth of the held tree, with the bounds of Trees.AverageDepth |
| Trees.Tree.DisplayTree | Tree.h:135-138 | the keys of the printed lines are the tree's in-order keys reversed |
| Vectors.Vector.constructor | Vector.h:27-28 | initial_size slots, all in use, and the invariant holds |
| Vectors.Vector.FromList | Vector.h:37-45 | exactly the listed elements, with capacity equal to their number |
| Vectors.Vector.Copy | Vector.h:64-71 | the same elements in fresh storage, with capacity equal to the allocated length |
| Vectors.Vector.CopyAssign | Vector.h:81-99 | the other's elements in fresh storage; self-assignment leaves everything as it was |
| Vectors.Vector.Move | Vector.h:108-114 | takes the source's buffer, capacity and length, and leaves the source empty with no storage |
| Vectors.Vector.MoveAssign | Vector.h:124-142 | as the move constructor, and self-assignment changes nothing |
| Vectors.Vector.Get | Vector.h:154-161 | out of range exactly when index >= size; otherwise the element at index |
| Vectors.Vector.Set | Vector.h:154-161 | a write through operator[] succeeds exactly when index < size, and changes only that element |
| Vectors.Vector.Size | Vector.h:204-207 | the number of stored elements |
| Vectors.Vector.Resize | Vector.h:171-195 | it truncates, or pads with default values; grows the buffer to max(new_size, 2 cap) only when new_size > cap |
| Vectors.Vector.PushBack | Vector.h:241-257 | the contents gain the value at the end; a full buffer grows to 1 (when cap is 0) or 2 cap, otherwise the buffer is kept |
| Vectors.Vector.FindOne | Vector.h:265-273 | the first index holding the key, and -1 exactly when the key is absent |
| Vectors.Vector.RemoveByIndex | Vector.h:284-297 | out of range exactly when index >= size; otherwise the element is removed and the rest keep their order, in the same buffer |
| Vectors.GrowCopy | Vector.h:180-184 | a fresh buffer of the new capacity starting with the old elements |
| Vectors.FillFrom | Vector.h:190-193 | the new tail slots hold the default value and the prefix is unchanged |
| Vectors.ShiftDown | Vector.h:291-294 | every slot from index on receives its right neighbour, and the prefix is unchanged |
| Vectors.CopyPrefix | Vector.h:67-70 | a fresh buffer holding exactly the first len elements |
| Vectors.CopyAsWrittenOverruns | Vector.h:64-65 | two push_backs and one removal leave len 1, cap 2; the copy as written records cap 2 over one slot, so its next push_back writes out of bounds |
| Vectors.CopyLayout | Vector.h:64-65 | the corrected copy keeps the layout sound, so its next push_back writes in bounds |
| Vectors.LayoutOperationsSound | Vector.h:241-297 | push_back and removeByIndex keep the layout sound, and push_back on a sound layout writes in bounds |
| Utils.AllDigits | Utils.h:155-161 | true exactly when every character is a decimal digit |
| Utils.IsNumeric | Utils.h:153-163 | true exactly when the string is non-empty and made only of decimal digits |
| Utils.DecimalValue | Utils.h:174-175 | the value `std::stoll` gives a digit string: each digit appended multiplies the value so far by ten and adds the digit, with no width limit |
| Utils.LexLess | Utils.h:184-187 | `std::string`'s `<`: a proper prefix comes first, otherwise the first differing character decides; asymmetric, total and transitive by the three lemmas below |
| Utils.CompareStrings | Utils.h:166-189 | returns -1, 0 or 1; numeric pairs are ordered by value, all others by std::string order, in both directions |
| Utils.LexLessAsymmetric | Utils.h:184-188 | std::string order is asymmetric |
| Utils.LexLessTotal | Utils.h:184-188 | any two distinct strings are ordered one way or the other |
| Utils.LexLessTransitive | Utils.h:184-188 | std::string order is transitive |
| Utils.CompareAntisymmetric | Utils.h:166-189 | swapping the arguments negates the result |
| Utils.CompareZeroNonNumeric | Utils.h:183-188 | unless both are numeric, the result is 0 exactly for equal strings |
| Utils.LeadingZeroEqual | Utils.h:171-181 | "01" and "1" compare equal, being numerically equal |
| Utils.CompareNotTransitive | Utils.h:166-189 | "2" < "10" < "1a" < "2": on mixed labels the comparator makes a cycle |
| Utils.AllNumericTransitive | Utils.h:171-181 | on all-numeric labels the comparator is transitive |
| Utils.NoneNumericTransitive | Utils.h:184-188 | on labels none of which is numeric the comparator is transitive |
| Utils.TransitiveOnPermutation | Utils.h:191-209 | transitivity on a set of labels survives any permutation of them |
| Utils.Swap | Utils.h:145-151 | exchanges two elements and changes nothing else |
| Utils.Create2D | Utils.h:26-35 | a fresh rows x cols table whose every cell holds the default value |
| Utils.SwapNextKeepsPairs | Utils.h:204-205 | swapping two neighbouring labels with the two probabilities beside them permutes the labels and keeps each label paired with its probability |
| Utils.SwapNeighbours | Utils.h:204-205 | the two _swap calls exchange labels j, j+1 and probabilities j+1, j+2 |
| Utils.BubblePass | Utils.h:197-207 | one inner pass keeps the labels and label/probability pairs as multisets and touches nothing beyond the pass; when the order is transitive it leaves the greatest label at the end of the pass |
| Utils.AfterPass | Utils.h:195-208 | after pass i + 1 the last i + 1 labels are sorted and no earlier label comes after them |
| Utils.SortPrefix | Utils.h:193-208 | the passes permute the labels, keep every pair, leave P[0] and the tail of P intact, and sort when the order is transitive on the labels |
| Utils.SortInputs | Utils.h:191-209 | the same facts on the two vectors' contents: a permutation that keeps each label with its probability, sorted whenever the comparator is transitive on the labels |
| ObstSpec.KeySumRight | OBST.h:64 | extending a range by key j adds p[j] + q[j] to its key sum |
| ObstSpec.Weight | OBST.h:35-64 | q[i - 1] for an empty range, and the weight of [i, j - 1] plus p[j] + q[j] otherwise, as the base case and the row-wise update fill W; its closed form is ObstSpec.WeightIsSum |
| ObstSpec.WeightIsSum | OBST.h:64 | the weight of [i, j] is q[i - 1] plus p[k] + q[k] over its keys, so the row-wise update computes it |
| ObstSpec.WeightSplit | OBST.h:70 | the weight of [i, j] is that of the left part plus p[r] plus that of the right part |
| ObstSpec.ArgMinIsFirstMinimum | OBST.h:67-78 | the chosen root lies in the window, attains the least candidate cost, and every earlier root costs strictly more |
| ObstSpec.BaseCases | OBST.h:32-44 | empty ranges weigh and cost q[a - 1]; [a, a] weighs q[a - 1] + p[a] + q[a] and has root a; its cost follows the base rule |
| ObstSpec.BestRootInRange | OBST.h:67-77 | the best root of a non-empty range lies inside it |
| ObstSpec.CostIsMinCand | OBST.h:67-77 | the cost of a range of two or more keys is the least candidate cost, attained at its best root |
| ObstSpec.RestrictedSearch | OBST.h:66-67 | a window that contains the best root finds the same least cost and the same first best root as the full range |
| ObstSpec.Engine | OBST.h:56-78 | a stored root is 0 or a key of the range |
| ObstSpec.EngineScan | OBST.h:61-78 | a root recorded by the loop is 0 or one of the roots it has tried |
| ObstSpec.EngineScanIsFirstMinimum | OBST.h:67-78 | the loop's cost is no more than any candidate it tried, a recorded root attains it, and every root tried before that root costs strictly more |
| ObstSpec.EngineScanSentinel | OBST.h:61-78 | the loop's cost never exceeds the sentinel, and it still holds root 0 exactly when its cost is still the sentinel |
| ObstSpec.EngineSentinel | OBST.h:56-78 | for two or more keys the stored cost is at most the sentinel, and the stored root is 0 exactly when the cost is the sentinel |
| ObstSpec.ScanFindsMinimum | OBST.h:61-78 | where the loop's candidates are the recurrence's, it finds the least candidate cost and its first root when that cost is below the sentinel, and otherwise keeps the sentinel and records no root |
| ObstSpec.EngineRootsChosen | OBST.h:56-78 | when every stored cost is below the sentinel, every non-empty range gets a root inside it, no search starts from root 0, and each root lies between the roots of the two ranges one key shorter |
| ObstSpec.EngineIsRecurrence | OBST.h:53-81 | when best roots are monotone and costs stay below the sentinel, the engine stores the recurrence's cost and first best root for every range |
| ObstSpec.WindowAgrees | OBST.h:67-70 | under the same conditions the engine's candidate costs are the recurrence's |
| ObstSpec.CandAgrees | OBST.h:70 | a candidate built from stored costs equal to the recurrence's is the recurrence's candidate |
| ObstSpec.EngineStep | OBST.h:61-78 | when the two shorter ranges hold their best roots, the best root of [i, j] lies between them and the candidates agree, the engine stores the cost and best root of [i, j] |
| ObstSpec.WindowScan | OBST.h:66-78 | a search over a window holding the best root, with agreeing candidates, yields exactly the cost and best root of [i, j] |
| ObstSpec.EngineBelowSentinelFromRecurrence | OBST.h:61 | recurrence costs below the sentinel and monotone best roots keep the engine's costs below the sentinel |
| ObstSpec.OptShape | OBST.h:90-107 | the best roots describe a search tree over exactly the keys of the range |
| ObstSpec.DepthCostDeeper | OBST.h:70 | hanging a tree one level deeper adds the weight of its range to its expected cost |
| ObstSpec.ShapeCostIsDepthCost | OBST.h:70 | the cost recurrence equals the expected search cost by depth |
| ObstSpec.UniformCostIsLowerBound | OBST.h:53-81 | under the corrected base rule no search tree costs less than the computed cost |
| ObstSpec.UniformCostIsAttained | OBST.h:53-81 | under the corrected base rule the tree of best roots costs exactly the computed cost |
| ObstSpec.UniformTreeIsOptimal | OBST.h:53-81 | under the corrected base rule the tree of best roots has an expected search cost no greater than any search tree over the keys |
| ObstSpec.SingleKeyWeightPicksWorseRoot | OBST.h:40 | for p = [_, 1, 1], q = [0, 0, 1] the base case as written picks root 1, building a tree of expected cost 6, while the tree with root 2 costs 5 |
| ObstSpec.UniformPicksBetterRoot | OBST.h:40 | for the same input the corrected base case picks root 2, at cost 5 |
| ObstSpec.FourKeysPairs | OBST.h:56-78 | for p = [_, 1, 1, 1, 3], q = [0, 0, 1, 0, 0] the engine stores the recurrence's cost and best root for every two-key range |
| ObstSpec.FourKeysTriples | OBST.h:56-78 | on the same input the engine stores the recurrence's cost and best root for every three-key range |
| ObstSpec.SingleKeyWeightWindowMissesMinimum | OBST.h:40 | on the same input, under the base case as written, every shorter range has monotone best roots, but [1, 4] has best root 4 beyond the root 3 of [2, 4]; the engine searches roots 2..3 and stores cost 15 and root 2, while the least cost is 14 at root 4 |
| Obst.InitializeLoop | OBST.h:29-45 | every empty range and every single-key range holds its weight, cost and root; roots above the diagonal are untouched |
| Obst.SearchRoot | OBST.h:60-78 | E[i][j], W[i][j] and Root[i][j] end as the engine's weight, cost and root of [i, j]; no other cell changes |
| Obst.ScanWindow | OBST.h:67-78 | E[i][j] and Root[i][j] end as the search loop's running minimum and first root over the window from Root[i][j-1] to Root[i+1][j]; no other cell changes |
| Obst.FillRange | OBST.h:58-78 | one pass of the middle loop fails exactly when the root stored for [i, j - 1] is 0, since the first candidate would read E[i][-1]; otherwise range [i, j] is filled and the cells of every earlier range are kept |
| Obst.ComputeOBST | OBST.h:53-81 | succeeds exactly when no search starts from root 0; then every cell, empty ranges included, holds the weight and the engine's cost and root of its range |
| Obst.FilledTables | OBST.h:53-81 | when the engine's costs stay below the sentinel, in filled tables each recorded root lies in its range and between the roots of the two shorter ranges, and its cost is that of its root, no more than any root of the window, and strictly less than any window root before it |
| Obst.FilledRange | OBST.h:67-78 | the same facts for one range of two or more keys |
| Obst.CandidatesAgree | OBST.h:70 | in filled tables the cost computed from the cells for root r is the engine's candidate cost |
| Obst.FilledTablesOptimal | OBST.h:53-81 | when best roots are monotone and costs stay below the sentinel, filled tables hold the cost and first best root of every range, and no root of the whole range costs less |
| Obst.BuildTreeIsEngineTree | OBST.h:90-107 | from a table of the engine's roots the rebuilt tree is the tree of the engine's roots |
| Obst.EngineTreeStep | OBST.h:93-106 | one node: equal roots and equal subtrees give equal trees |
| Obst.BuildTreeFromRoot | OBST.h:90-107 | empty when i > j or the stored root is 0; out of range when the root r has no label r - 1 or either subtree fails; otherwise the node labelled labels[r - 1] over the rebuilt [i, r - 1] and [r + 1, j] |
| Obst.BuildTreeKeepsOrder | OBST.h:90-107 | with every root chosen and enough labels, the rebuilt tree exists, has j - i + 1 nodes and lists labels[i-1..j-1] in order |
| Obst.BuildNode | OBST.h:97-106 | with root r and both subtrees built, the tree of [i, j] is the node labelled labels[r - 1] over them |
| Obst.NodeInOrder | OBST.h:100-104 | a node labelled labels[r - 1] over the labels left and right of r lists the whole range in order |
| Obst.BuildTreeNeedsLabels | OBST.h:100 | with every root chosen, rebuilding fails out of range when fewer than j labels are given |
| Obst.BuildTreeIsOptShape | OBST.h:90-107 | from a table of best roots the rebuilt tree is the labelled tree of best roots |
| Obst.ConvertToTree | OBST.h:115-120 | a fresh tree holding the rebuilt nodes of [1, n], failing exactly when the rebuild does |
| Obst.FilledTree | OBST.h:90-120 | from filled tables the rebuilt tree is the tree of the engine's roots; with the engine's costs below the sentinel it fails exactly when labels are missing and otherwise lists labels[0..n-1] with n nodes; when the engine agrees with the recurrence it is the tree of best roots |
| Obst.GenerateTheOBST | OBST.h:150-173 | fails exactly when p is empty, q is shorter than p, a search starts from root 0, or the tree of the engine's roots needs a missing label; otherwise a fresh tree of the engine's roots; with costs below the sentinel it fails exactly when labels are missing and lists labels[0..n-1]; under monotone best roots it is the tree of best roots; empty for no keys |
| Obst.PushInputs | OBST.h:178-180 | each of the three vectors gains its value at the end |
| Obst.AddNode | OBST.h:175-183 | labels and P gain one entry, as a permutation that keeps each label with its probability; Q gains q unsorted; the labels are sorted when the comparator is transitive on them |

## Left out

- Input, output and display are left out: Utils.h's console readers, `displayTwoDVec`, `Vector::display`, `OBST::displayTables` and the `_displayTables` flag of `generateTheOBST`, and `Tree::analyzeTree`, which only prints the four analyses modelled above. `Trees.DisplayTreeHelper` models the printed lines as (depth, key) pairs without the indentation characters.
- Memory management: `deleteTree`, the destructors and `delete[]` belong to the runtime here. Nodes are values, so the unreclaimed old root after `setRoot` (Tree.h:125-128) and the nodes lost when a rebuild throws part-way are not visible.
- TreeNode.h, TreeVisualization.h and the CLI screens are not part of this model. Deleting a node through the CLI is among them.
- Floating point: `float` and `double` become `real`, so rounding, NaN and infinity are not modelled. The sentinel `INT32_MAX` becomes the float it converts to, 2147483648.
- The root table holds `float` in OBST.h and is read back through `int(...)`. Here it is an `int` table.
- Integer widths: `int` and `size_t` are unbounded, so no overflow is modelled.
- Utils.CompareStrings: `std::stoll` throws for numeric labels too long for `long long`. The model gives every digit string its exact value.
- Utils.IsNumeric: `std::isdigit` is taken as the ten ASCII digits, without locales.
- The tables are `Vector<Vector<float>>` in OBST.h and `array2` here. `Utils.Create2D` builds such a table. Row-by-row `resize` and `operator[]` bounds checks on the tables are not modelled, beyond the out-of-range paths of `Obst.GenerateTheOBST`.
- Vectors.Vector.Resize and Utils.Create2D take the default value `T()` as a parameter `zero`.
- Vectors.Vector.Resize: the guard in Vector.h's `resize` that turns a new capacity of 0 into 1 is not modelled. It cannot fire, because new_size > cap implies new_size >= 1.
- Vectors.Vector.Get and Vectors.Vector.Set: `operator[]` returns a reference. Reading through it and writing through it are two methods.
- Vectors.Vector.Copy and Vectors.Vector.CopyAssign: these set the capacity to the copied length, not the source's capacity (see "## Findings").
- Utils.SortInputs: requires P to hold at least one more entry than the labels. `sortInputs` reads `P[j + 2]` only when a swap happens, so it can also succeed with a shorter P when no swap occurs.
- Utils.SortInputs: the result is promised sorted only when the comparator is transitive on the labels. Utils.CompareNotTransitive shows that it is not transitive on mixed numeric and non-numeric labels.
- Knuth's theorem, that best roots are monotone under the consistent cost rule, is not proved. Obst.FilledTablesOptimal, Obst.FilledTree and Obst.GenerateTheOBST state their optimality clauses under it as a hypothesis (`KnuthMonotone`), not as a precondition.
- A search starting from root 0 faults. Suppose range [i, j] keeps the sentinel and root 0, which happens when no candidate is below the sentinel. The longer range [i, j + 1] then starts its search at r = 0 and reads `E[i][-1]`, which `Vector::operator[]` (Vector.h:154-161) rejects with `std::out_of_range`. `Obst.ComputeOBST` reports this as failure. The range [i - 1, j] instead gets an empty window, because its upper end is 0; when `Root[i - 1][j - 1]` is not 0 it keeps the sentinel and root 0 without a fault, and otherwise it faults in the same way.
- Obst.GenerateTheOBST: every `std::out_of_range` thrown on the way becomes one `OutOfRange` result.
- Obst.AddNode: requires the three vectors to be distinct. `OBST::addNode` has no caller among the modelled files, so this is an assumption about its callers. Like Utils.SortInputs, it requires P to be one entry longer than the labels.

## Findings

| source | as written | input that shows it | evidently intended | confidence | as-written member | corrected member |
|---|---|---|---|---|---|---|
| OBST.h:40 | the cost of a one-key range [a, a] is its weight W[a][a], leaving out the costs q[a - 1] and q[a] of the two empty ranges below it, which every longer range adds | p = [_, 1, 1], q = [0, 0, 1]: both roots of [1, 2] cost 5 by the tables, the first (root 1) is kept, and that tree's expected search cost is 6 while root 2 gives 5. Also p = [_, 1, 1, 1, 3], q = [0, 0, 1, 0, 0]: best roots stop being monotone, and the window search at OBST.h:67 stores cost 15 for [1, 4] where the recurrence's minimum is 14 | E[a][a] = q[a - 1] + q[a] + W[a][a], under which the tree built is optimal | not executed | ObstSpec.SingleKeyWeightPicksWorseRoot, ObstSpec.SingleKeyWeightWindowMissesMinimum | ObstSpec.UniformTreeIsOptimal |
| Vector.h:65 | the copy constructor (and copy assignment, lines 89-91) records the source's capacity but allocates only its length | push_back twice onto an empty vector, removeByIndex(0), copy: the copy records cap 2 over one slot, and its next push_back writes slot 1 of a one-slot buffer | record the allocated length as the capacity | not executed | Vectors.CopyAsWrittenOverruns | Vectors.CopyLayout |
