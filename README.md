# A verified model of the QMC, 3-SAT and cycle-search cores

This project models four pieces of a collection of Java course programs and proves what they compute:

- **Quine–McCluskey Boolean-function library** (`hr.fer.zemris.bool`). It covers:
  - the three-valued `BooleanValue` (TRUE, FALSE, DONT_CARE) and the AND, OR and NOT operators over it;
  - variables and operator trees;
  - ternary `Mask`s, their parsing, printing and combination;
  - `BooleanSwissKnife`;
  - the three Boolean-function implementations `IndexedBF`, `MaskBasedBF` and `OperatorTreeBF`, and the `BFGrandUnifier` helper that answers their questions about minterms, maxterms and don't-cares;
  - `Implicant`;
  - Petrick's method on symbolic expressions: `Symbol`, `SymbolicConjunction` and `SymbolicDisjunction`.
- **In-place straight insertion sort** over `int[]` (`StraightInsertionionSorter`).
- **3-SAT model** (`hr.fer.zemris.trisat`). It covers:
  - clauses, formulas, bit vectors and mutable bit vectors;
  - the generator of the one-bit-flip neighbourhood;
  - the default `fitness` (number of satisfied clauses);
  - the exhaustive search.
- **Cycle search of `GreatestCycle`**: an adjacency-matrix graph, its edge list, and the depth-first search from vertex 0 that, along every simple path it walks, records the cycle closed by each edge back onto the path other than the edge to the path's previous vertex (so a 2-cycle is never recorded, and a self-loop at vertex 0 makes the search throw).

## How the model is built

**Java behaviour in Dafny terms**
- Exceptions become the `Failure` case of `Wrappers.Result`, with the Java exception kind as the error.
- A `null` result becomes `Option.None`.
- Java `int` arithmetic is written out where it matters (`Bits.Wrap`, `Bits.JavaBitMask`), for example:
  - repeated doubling past 2^30, as in `binaryVariationsCount` and the table size;
  - `Math.abs(Integer.MIN_VALUE)`;
  - `(int) Math.pow(2, n - 1)`.

**Values and objects**
- Immutable values are datatypes: `Mask`, `Clause`, symbolic expressions, `Pair`, operator trees.
- Objects whose fields the code updates, or whose identity matters, are classes:
  - `BooleanVariable`;
  - the bit vectors (an array of bits);
  - `SATFormula`, which aliases the caller's clause array;
  - `BFGrandUnifier`, which sorts the caller's don't-care list in place through `IntList`;
  - the three function classes, `Implicant` and `SymbolicDisjunction`;
  - the neighbourhood generator and its iterator;
  - the graph.

**Methods, specification functions and lemmas**
- Each Java loop is a method with its invariants. It is proved equal to a specification function (`Value`, `CombineSpec`, `Expansions`, `RemoveIrrelevantSpec`, `SearchFrom`, …).
- Lemmas then state what that function means (membership, counts, round-trips, truth of an expression under any assignment).
- A Java constructor that can throw is a static `Create` returning a `Result`. A plain constructor stores the fields.

## Model

| member | source | states |
|---|---|---|
| Kleene.And | java/QMCMinimizer/src/main/java/hr/fer/zemris/bool/opimpl/BooleanOperatorAND.java:50-59 | FALSE iff either operand is FALSE, TRUE iff both are TRUE, so DONT_CARE in every other case |
| Kleene.Or | java/QMCMinimizer/src/main/java/hr/fer/zemris/bool/opimpl/BooleanOperatorOR.java:50-59 | TRUE iff either operand is TRUE, FALSE iff both are FALSE, so DONT_CARE in every other case |
| Kleene.Not | java/QMCMinimizer/src/main/java/hr/fer/zemris/bool/misc/BooleanSwissKnife.java:102-116 | TRUE iff the operand is FALSE, FALSE iff it is TRUE, DONT_CARE iff it is DONT_CARE |
| Kleene.NotInvolution | java/QMCMinimizer/src/main/java/hr/fer/zemris/bool/misc/BooleanSwissKnife.java:102-116 | complementing twice gives the value back |
| Kleene.TwoValued | java/QMCMinimizer/src/main/java/hr/fer/zemris/bool/opimpl/BooleanOperatorAND.java:50-59 | on TRUE and FALSE the three connectives are Boolean and, or, not |
| Kleene.DeMorgan | java/QMCMinimizer/src/main/java/hr/fer/zemris/bool/opimpl/BooleanOperatorOR.java:50-59 | De Morgan's laws hold for the three-valued connectives |
| Kleene.Algebra | java/QMCMinimizer/src/main/java/hr/fer/zemris/bool/opimpl/BooleanOperatorAND.java:30-41 | AND and OR are commutative and associative, so the left fold of `getValue` does not depend on grouping |
| Kleene.AndAllMeaning | java/QMCMinimizer/src/main/java/hr/fer/zemris/bool/opimpl/BooleanOperatorAND.java:30-41 | folding a non-empty list by AND gives FALSE iff some value is FALSE and TRUE iff all are TRUE |
| Kleene.OrAllMeaning | java/QMCMinimizer/src/main/java/hr/fer/zemris/bool/opimpl/BooleanOperatorOR.java:30-41 | folding by OR gives TRUE iff some value is TRUE and FALSE iff all are FALSE |
| Variables.BooleanVariable.constructor | java/QMCMinimizer/src/main/java/hr/fer/zemris/bool/BooleanVariable.java:34-36 | a variable with the given name and the initial value FALSE |
| Variables.BooleanVariable.SetValue | java/QMCMinimizer/src/main/java/hr/fer/zemris/bool/BooleanVariable.java:73-75 | the value becomes the argument; the name stays |
| Variables.BooleanVariable.Equals | java/QMCMinimizer/src/main/java/hr/fer/zemris/bool/BooleanVariable.java:92-105 | two variables are equal iff their names are |
| Variables.BooleanVariable.Clone | java/QMCMinimizer/src/main/java/hr/fer/zemris/bool/BooleanVariable.java:119-129 | a new object with the same name and value |
| Variables.EqualsIsEquivalence | java/QMCMinimizer/src/main/java/hr/fer/zemris/bool/BooleanVariable.java:92-105 | `equals` is reflexive, symmetric and transitive |
| BooleanSources.GetValue | java/QMCMinimizer/src/main/java/hr/fer/zemris/bool/BooleanConstant.java:46-49 | the answer is `Value(s)`: a constant's value, a variable's current value, or the operator's evaluation |
| BooleanSources.GetOperatorValue | java/QMCMinimizer/src/main/java/hr/fer/zemris/bool/opimpl/BooleanOperatorNOT.java:25-40 | the answer is `Value(s)`: the base operator class throws UnsupportedOperation, an operator without sources IndexOutOfBounds, and NOT complements its first source |
| BooleanSources.CombineSources | java/QMCMinimizer/src/main/java/hr/fer/zemris/bool/opimpl/BooleanOperatorAND.java:30-41 | the loop folding the sources left to right by AND or OR ends with `Value(s)`, and the first failing source's exception propagates |
| BooleanSources.ValuesUpToMeaning | java/QMCMinimizer/src/main/java/hr/fer/zemris/bool/opimpl/BooleanOperatorOR.java:30-41 | the sources' values are obtained iff every source evaluates; they are those values in order, and a failure is the first failing source's |
| BooleanSources.AndValue | java/QMCMinimizer/src/main/java/hr/fer/zemris/bool/opimpl/BooleanOperators.java:24-26 | an AND of evaluable sources fails with IndexOutOfBounds when empty, else it is FALSE iff some source is FALSE and TRUE iff all are TRUE |
| BooleanSources.OrValue | java/QMCMinimizer/src/main/java/hr/fer/zemris/bool/opimpl/BooleanOperators.java:34-36 | an OR of evaluable sources fails when empty, else it is TRUE iff some source is TRUE and FALSE iff all are FALSE |
| BooleanSources.NotOf | java/QMCMinimizer/src/main/java/hr/fer/zemris/bool/opimpl/BooleanOperators.java:45-50 | succeeds iff exactly one source is given, with a NOT over it; IllegalArgument otherwise |
| BooleanSources.NotValue | java/QMCMinimizer/src/main/java/hr/fer/zemris/bool/opimpl/BooleanOperatorNOT.java:25-40 | NOT of a source is the complement of its value, and its failure propagates; a constant is never DONT_CARE |
| BooleanSources.FirstNamed | java/QMCMinimizer/src/main/java/hr/fer/zemris/bool/BooleanOperator.java:49-59 | the variable a hash set keeps for a name exists iff the name occurs in the list, and it carries that name |
| BooleanSources.AddAll | java/QMCMinimizer/src/main/java/hr/fer/zemris/bool/BooleanOperator.java:52-54 | adding a source's domain to a domain of the earlier sources gives a domain of all of them |
| BooleanSources.GetDomain | java/QMCMinimizer/src/main/java/hr/fer/zemris/bool/BooleanOperator.java:49-59 | the domain holds one variable per distinct name in the tree, the first variable of that name |
| BooleanSources.DomainSize | java/QMCMinimizer/src/main/java/hr/fer/zemris/bool/BooleanOperator.java:49-59 | the domain has as many variables as the tree has distinct names |
| TernaryMask.GetValue | java/QMCMinimizer/src/main/java/hr/fer/zemris/bool/Mask.java:82-88 | IllegalArgument iff the index is outside the mask, else the value at the index |
| TernaryMask.Equals | java/QMCMinimizer/src/main/java/hr/fer/zemris/bool/Mask.java:236-247 | equal iff of the same length and equal at every position |
| TernaryMask.GetNumberOf | java/QMCMinimizer/src/main/java/hr/fer/zemris/bool/Mask.java:201-210 | the number of positions holding the value |
| TernaryMask.OccurrencesSum | java/QMCMinimizer/src/main/java/hr/fer/zemris/bool/Mask.java:181-193 | the zeros, ones and don't-cares add up to the mask's size |
| TernaryMask.IsMoreGeneral | java/QMCMinimizer/src/main/java/hr/fer/zemris/bool/Mask.java:102-114 | IllegalArgument iff the sizes differ, else true iff the mask has more don't-cares than the other |
| TernaryMask.FromIndex | java/QMCMinimizer/src/main/java/hr/fer/zemris/bool/Mask.java:30-43 | NegativeArraySize iff the domain size is negative, else the loop over the bits builds `IndexMask(domainSize, index)` |
| TernaryMask.IndexMaskDigits | java/QMCMinimizer/src/main/java/hr/fer/zemris/bool/Mask.java:30-43 | position p of the mask of a non-negative index is ONE iff bit n-1-p of the index is set, else ZERO |
| TernaryMask.IndexMaskInjective | java/QMCMinimizer/src/main/java/hr/fer/zemris/bool/Mask.java:30-43 | masks of indexes below 2^n have no don't-care, and distinct indexes give distinct masks |
| TernaryMask.Parse | java/QMCMinimizer/src/main/java/hr/fer/zemris/bool/Mask.java:51-74 | the loop answers `ParseSpec`: the mask of the characters '0', '1', 'x', or IllegalArgument for any other character |
| TernaryMask.ToString | java/QMCMinimizer/src/main/java/hr/fer/zemris/bool/Mask.java:250-265 | the loop builds `MaskString(m)`, one character per position |
| TernaryMask.ParsePrinted | java/QMCMinimizer/src/main/java/hr/fer/zemris/bool/Mask.java:51-74 | parsing a printed mask gives the mask back |
| TernaryMask.PrintParsed | java/QMCMinimizer/src/main/java/hr/fer/zemris/bool/Mask.java:250-265 | printing a parsed string gives the string back |
| TernaryMask.Combine | java/QMCMinimizer/src/main/java/hr/fer/zemris/bool/Mask.java:129-170 | the loop answers `CombineSpec`: IllegalArgument for different sizes; null when either mask is more general, they share two don't-cares, or they do not differ in exactly one position; else the merge |
| TernaryMask.RefusedEarly | java/QMCMinimizer/src/main/java/hr/fer/zemris/bool/Mask.java:129-170 | two shared don't-cares or two differing positions already seen make the answer null, which the early returns rely on |
| TernaryMask.CombineSound | java/QMCMinimizer/src/main/java/hr/fer/zemris/bool/Mask.java:129-170 | a combined mask comes from masks differing at exactly one position where one has ZERO and the other ONE; that position becomes DONT_CARE, the rest are kept, and it has one don't-care more than each |
| TernaryMask.CombineComplete | java/QMCMinimizer/src/main/java/hr/fer/zemris/bool/Mask.java:129-170 | masks of equal size that differ only at one ZERO/ONE position and share at most one don't-care are combined into their merge |
| TernaryMask.CombineSymmetric | java/QMCMinimizer/src/main/java/hr/fer/zemris/bool/Mask.java:129-170 | combining is symmetric in its arguments |
| Masks.FromIndexes | java/QMCMinimizer/src/main/java/hr/fer/zemris/bool/Masks.java:22-32 | NegativeArraySize iff the domain size is negative and there is an index, else one mask per index, in order, each that index's `fromIndex` mask |
| Masks.FromIndexesDistinct | java/QMCMinimizer/src/main/java/hr/fer/zemris/bool/Masks.java:22-32 | distinct indexes inside the table give distinct masks without don't-cares |
| Masks.FromStrings | java/QMCMinimizer/src/main/java/hr/fer/zemris/bool/Masks.java:42-51 | IllegalArgument iff some string does not parse; else one parsed mask per string, in order |
| Masks.FromStringsPrinted | java/QMCMinimizer/src/main/java/hr/fer/zemris/bool/Masks.java:42-51 | strings printed from masks parse back to those masks |
| SwissKnife.Filter | java/QMCMinimizer/src/main/java/hr/fer/zemris/bool/misc/BooleanSwissKnife.java:27-36 | the kept elements are accepted elements of the input, and every accepted element is kept |
| SwissKnife.FilterInts | java/QMCMinimizer/src/main/java/hr/fer/zemris/bool/misc/BooleanSwissKnife.java:27-36 | the loop keeps exactly `Filter(accepts, elements)` |
| SwissKnife.FilterIdempotent | java/QMCMinimizer/src/main/java/hr/fer/zemris/bool/misc/BooleanSwissKnife.java:27-36 | filtering twice is filtering once |
| SwissKnife.FilterAppend | java/QMCMinimizer/src/main/java/hr/fer/zemris/bool/misc/BooleanSwissKnife.java:27-36 | filtering a concatenation is concatenating the filtered parts |
| SwissKnife.Any | java/QMCMinimizer/src/main/java/hr/fer/zemris/bool/misc/BooleanSwissKnife.java:45-53 | true iff some element is accepted |
| SwissKnife.All | java/QMCMinimizer/src/main/java/hr/fer/zemris/bool/misc/BooleanSwissKnife.java:62-70 | true iff every element is accepted |
| SwissKnife.ListIntersection | java/QMCMinimizer/src/main/java/hr/fer/zemris/bool/misc/BooleanSwissKnife.java:158-168 | the elements of the first collection that are in the second, in order |
| SwissKnife.IntersectionMeaning | java/QMCMinimizer/src/main/java/hr/fer/zemris/bool/misc/BooleanSwissKnife.java:158-168 | an element is in the intersection iff it is in both collections |
| SwissKnife.IndexAsBinary | java/QMCMinimizer/src/main/java/hr/fer/zemris/bool/misc/BooleanSwissKnife.java:80-93 | NegativeArraySize iff the length is negative, else the loop builds `BinaryValues(numberLength, index)` |
| SwissKnife.BinaryValuesMatchMask | java/QMCMinimizer/src/main/java/hr/fer/zemris/bool/misc/BooleanSwissKnife.java:80-93 | position p is TRUE iff `Mask.fromIndex` has ONE there, and it is never DONT_CARE |
| SwissKnife.BinaryValuesRoundTrip | java/QMCMinimizer/src/main/java/hr/fer/zemris/bool/misc/BooleanSwissKnife.java:80-93 | for 0 ≤ index < 2^n, reading the values as a binary number gives the index back |
| SwissKnife.Range | java/QMCMinimizer/src/main/java/hr/fer/zemris/bool/misc/BooleanSwissKnife.java:127-134 | element k is start + k·step and below end, and the next one would not be |
| SwissKnife.RangeOfOne | java/QMCMinimizer/src/main/java/hr/fer/zemris/bool/misc/BooleanSwissKnife.java:127-134 | `range(0, end, 1)` is 0, 1, …, end-1 |
| SwissKnife.BinaryVariationsCount | java/QMCMinimizer/src/main/java/hr/fer/zemris/bool/misc/BooleanSwissKnife.java:142-149 | 1 for n ≤ 0 and 2^n up to n = 30; the repeated `int` doubling wraps to -2^31 at n = 31 and to 0 from n = 32 on |
| SwissKnife.CopyIntList | java/QMCMinimizer/src/main/java/hr/fer/zemris/bool/misc/BooleanSwissKnife.java:190-198 | the copy has the same elements in the same order |
| SwissKnife.CopyMaskList | java/QMCMinimizer/src/main/java/hr/fer/zemris/bool/misc/BooleanSwissKnife.java:222-230 | the copy has the same masks in the same order |
| SwissKnife.CopyBooleanVariableList | java/QMCMinimizer/src/main/java/hr/fer/zemris/bool/misc/BooleanSwissKnife.java:206-214 | fresh, pairwise distinct variable objects with the same names and values, in order |
| GrandUnifier.Sort | java/QMCMinimizer/src/main/java/hr/fer/zemris/bool/fimpl/BFGrandUnifier.java:46-69 | `Collections.sort` gives a sorted permutation of the list |
| GrandUnifier.IntList.SortInPlace | java/QMCMinimizer/src/main/java/hr/fer/zemris/bool/fimpl/BFGrandUnifier.java:46-69 | the caller's don't-care list becomes its sorted permutation |
| GrandUnifier.RemoveAll | java/QMCMinimizer/src/main/java/hr/fer/zemris/bool/fimpl/BFGrandUnifier.java:46-69 | `removeAll` keeps exactly the elements not in the removed list |
| GrandUnifier.OthersMeaning | java/QMCMinimizer/src/main/java/hr/fer/zemris/bool/fimpl/BFGrandUnifier.java:46-69 | a row is in the complement list iff it is inside the table and neither a given index nor a don't-care |
| GrandUnifier.Partition | java/QMCMinimizer/src/main/java/hr/fer/zemris/bool/fimpl/BFGrandUnifier.java:46-69 | for valid, disjoint lists each row of the table is in exactly one of the three lists, and no row outside the table is in any |
| GrandUnifier.BFGrandUnifier.constructor | java/QMCMinimizer/src/main/java/hr/fer/zemris/bool/fimpl/BFGrandUnifier.java:46-69 | a cloned domain, table size 2^n in `int` arithmetic, the given don't-care list sorted in place, and sorted minterm / maxterm lists by mode |
| GrandUnifier.BFGrandUnifier.OtherIndexes | java/QMCMinimizer/src/main/java/hr/fer/zemris/bool/fimpl/BFGrandUnifier.java:46-69 | the loop over the table builds the complement list `Others` |
| GrandUnifier.BFGrandUnifier.ExactlyOne | java/QMCMinimizer/src/main/java/hr/fer/zemris/bool/fimpl/BFGrandUnifier.java:174-190 | each row of the table is exactly one of minterm, maxterm and don't-care, none outside it is any; the given indexes are the minterms in minterm mode and the maxterms otherwise |
| GrandUnifier.BFGrandUnifier.GetValue | java/QMCMinimizer/src/main/java/hr/fer/zemris/bool/fimpl/BFGrandUnifier.java:138-145 | without don't-cares it never fails, and for up to 31 variables it is the no-don't-care answer at the row the variables spell; with don't-cares, the sum-of-products answer |
| GrandUnifier.BFGrandUnifier.GetValueNoDontCares | java/QMCMinimizer/src/main/java/hr/fer/zemris/bool/fimpl/BFGrandUnifier.java:150-169 | for up to 31 variables the packing loop computes the domain's row index exactly and answers `NoDontCareValue` at it |
| GrandUnifier.BFGrandUnifier.NoDontCareMeaning | java/QMCMinimizer/src/main/java/hr/fer/zemris/bool/fimpl/BFGrandUnifier.java:150-169 | as written, without don't-cares the answer is TRUE iff the row is one of the given indexes, in either mode |
| GrandUnifier.BFGrandUnifier.GetValueWithDontCares | java/QMCMinimizer/src/main/java/hr/fer/zemris/bool/fimpl/BFGrandUnifier.java:196-230 | the answer is the value of the OR of one product per minterm |
| GrandUnifier.BFGrandUnifier.WithDontCareMeaning | java/QMCMinimizer/src/main/java/hr/fer/zemris/bool/fimpl/BFGrandUnifier.java:196-230 | for 1 to 30 two-valued variables: IndexOutOfBounds when there is no minterm; else, in minterm mode, TRUE iff the row is a given index; in maxterm mode, where the sum of products is complemented, TRUE iff the row is a given index or a don't-care |
| GrandUnifier.ProductValue | java/QMCMinimizer/src/main/java/hr/fer/zemris/bool/fimpl/BFGrandUnifier.java:210-220 | the product of row m is TRUE iff the variables' values spell m, and fails for an empty domain |
| GrandUnifier.SumOfProductsValue | java/QMCMinimizer/src/main/java/hr/fer/zemris/bool/fimpl/BFGrandUnifier.java:196-230 | the sum of products is TRUE iff the variables' row is among the minterms |
| GrandUnifier.SumOfProductsFails | java/QMCMinimizer/src/main/java/hr/fer/zemris/bool/fimpl/BFGrandUnifier.java:196-230 | with no minterm, or no variable, the evaluation fails with IndexOutOfBounds |
| GrandUnifier.BFGrandUnifier.MaxtermModeComplement | java/QMCMinimizer/src/main/java/hr/fer/zemris/bool/fimpl/BFGrandUnifier.java:150-169 | in maxterm mode without don't-cares the answer as written is the complement of the intended value at every row |
| GrandUnifier.BFGrandUnifier.IntendedValueMeaning | java/QMCMinimizer/src/main/java/hr/fer/zemris/bool/fimpl/BFGrandUnifier.java:174-190 | the corrected value is TRUE at exactly the minterms, DONT_CARE at the don't-cares and FALSE at the maxterms |
| Indexed.IndexedBF.Preconditions | java/QMCMinimizer/src/main/java/hr/fer/zemris/bool/fimpl/IndexedBF.java:87-105 | true iff every index and don't-care is inside the table and no index is also a don't-care |
| Indexed.AcceptableSorted | java/QMCMinimizer/src/main/java/hr/fer/zemris/bool/fimpl/IndexedBF.java:62-84 | sorting the don't-cares does not change whether `preconditionsIndexedBF` accepts the lists |
| Indexed.IndexedBF.Create | java/QMCMinimizer/src/main/java/hr/fer/zemris/bool/fimpl/IndexedBF.java:62-84 | IllegalArgument iff `preconditionsIndexedBF` refuses the lists; the caller's don't-care list is sorted either way; on success a fresh function over cloned variables whose helper keeps the given indexes |
| Indexed.IndexedBF.ExactlyOne | java/QMCMinimizer/src/main/java/hr/fer/zemris/bool/fimpl/IndexedBF.java:135-153 | every row of the table is exactly one of minterm, maxterm and don't-care, and the given indexes are of the given kind |
| Indexed.IndexedBF.Minterms | java/QMCMinimizer/src/main/java/hr/fer/zemris/bool/fimpl/IndexedBF.java:159-161 | a sorted list holding exactly the minterms |
| Indexed.IndexedBF.Maxterms | java/QMCMinimizer/src/main/java/hr/fer/zemris/bool/fimpl/IndexedBF.java:167-169 | a sorted list holding exactly the maxterms |
| Indexed.IndexedBF.DontCares | java/QMCMinimizer/src/main/java/hr/fer/zemris/bool/fimpl/IndexedBF.java:175-177 | a sorted list holding exactly the don't-cares |
| Indexed.IndexedBF.GetValue | java/QMCMinimizer/src/main/java/hr/fer/zemris/bool/fimpl/IndexedBF.java:119-121 | as the helper's `getValue` for its own copy of the domain: without don't-cares it never fails, and for up to 31 variables it is the answer at the row the variables spell; with don't-cares, the sum-of-products answer |
| MaskBased.PossibleMasks | java/QMCMinimizer/src/main/java/hr/fer/zemris/bool/fimpl/MaskBasedBF.java:109-149 | the recursion answers `Expansions(maskList)` |
| MaskBased.ExpansionsAtFirst | java/QMCMinimizer/src/main/java/hr/fer/zemris/bool/fimpl/MaskBasedBF.java:109-149 | the expansions are those with the first don't-care set to ONE followed by those with it set to ZERO |
| MaskBased.ExpansionsDefined | java/QMCMinimizer/src/main/java/hr/fer/zemris/bool/fimpl/MaskBasedBF.java:109-149 | a mask without don't-cares expands to itself alone |
| MaskBased.ExpansionsCount | java/QMCMinimizer/src/main/java/hr/fer/zemris/bool/fimpl/MaskBasedBF.java:109-149 | a mask with d don't-cares has 2^d expansions |
| MaskBased.ExpansionsRefine | java/QMCMinimizer/src/main/java/hr/fer/zemris/bool/fimpl/MaskBasedBF.java:109-149 | every expansion has no don't-care and agrees with the mask at its fixed positions |
| MaskBased.ExpansionsComplete | java/QMCMinimizer/src/main/java/hr/fer/zemris/bool/fimpl/MaskBasedBF.java:109-149 | every such refinement of the mask is an expansion |
| MaskBased.OnesBeforeZeros | java/QMCMinimizer/src/main/java/hr/fer/zemris/bool/fimpl/MaskBasedBF.java:109-149 | expansions with ONE at the first don't-care come before those with ZERO |
| MaskBased.ListMaskToIndex | java/QMCMinimizer/src/main/java/hr/fer/zemris/bool/fimpl/MaskBasedBF.java:157-170 | IndexOutOfBounds iff the list is shorter than the variable count; for up to 31 variables, the row index the first n values spell |
| MaskBased.IndexRoundTrip | java/QMCMinimizer/src/main/java/hr/fer/zemris/bool/fimpl/MaskBasedBF.java:157-170 | the index of `Mask.fromIndex(n, i)` is i for every row i of the table |
| MaskBased.MaskAsList | java/QMCMinimizer/src/main/java/hr/fer/zemris/bool/fimpl/MaskBasedBF.java:178-186 | the list of the mask's values, in order |
| MaskBased.MaskRows | java/QMCMinimizer/src/main/java/hr/fer/zemris/bool/fimpl/MaskBasedBF.java:93-98 | the rows of one mask's expansions in order, or IndexOutOfBounds when the mask is too short |
| MaskBased.DefinedMaskRows | java/QMCMinimizer/src/main/java/hr/fer/zemris/bool/fimpl/MaskBasedBF.java:91-100 | a mask without don't-cares stands for its own row only |
| MaskBased.IndexesFromMasks | java/QMCMinimizer/src/main/java/hr/fer/zemris/bool/fimpl/MaskBasedBF.java:91-100 | IndexOutOfBounds iff some mask is too short, else the rows of all masks' expansions, mask after mask |
| MaskBased.RowsOfMeaning | java/QMCMinimizer/src/main/java/hr/fer/zemris/bool/fimpl/MaskBasedBF.java:91-100 | a row belongs to a mask iff some refinement of the mask has that index |
| MaskBased.AllRowsMeaning | java/QMCMinimizer/src/main/java/hr/fer/zemris/bool/fimpl/MaskBasedBF.java:91-100 | a row is listed iff it belongs to one of the masks |
| MaskBased.MaskBasedBF.Create | java/QMCMinimizer/src/main/java/hr/fer/zemris/bool/fimpl/MaskBasedBF.java:46-61 | IndexOutOfBounds iff a mask is shorter than the domain, else a fresh function over cloned variables keeping the given masks |
| MaskBased.MaskBasedBF.CoveredRows | java/QMCMinimizer/src/main/java/hr/fer/zemris/bool/fimpl/MaskBasedBF.java:215-233 | a row is a minterm (maxterm in maxterm mode) iff one of the masks covers it, and a don't-care iff a don't-care mask covers it |
| MaskBased.MaskBasedBF.CoveredByMask | java/QMCMinimizer/src/main/java/hr/fer/zemris/bool/fimpl/MaskBasedBF.java:215-225 | a row is of the masks' kind iff some refinement of some mask has that index |
| MaskBased.MaskBasedBF.GetValue | java/QMCMinimizer/src/main/java/hr/fer/zemris/bool/fimpl/MaskBasedBF.java:81-83 | as the helper's `getValue` for its own copy of the domain: without don't-cares it never fails, and for up to 31 variables it is the answer at the row the variables spell; with don't-cares, the sum-of-products answer |
| OperatorTree.IndexOf | java/QMCMinimizer/src/main/java/hr/fer/zemris/bool/fimpl/OperatorTreeBF.java:172 | -1 iff no variable of the list equals the argument by name, else the first equal one |
| OperatorTree.WriteBits | java/QMCMinimizer/src/main/java/hr/fer/zemris/bool/fimpl/OperatorTreeBF.java:170-175 | the loop completes iff each of the first m domain names is a tree name; then the tree variable of each name holds the bit of the last position carrying it |
| OperatorTree.AssignedTreeValue | java/QMCMinimizer/src/main/java/hr/fer/zemris/bool/fimpl/OperatorTreeBF.java:164-182 | for a well-formed tree, once the bits of row k are written, the tree's value is its value at row k |
| OperatorTree.OperatorTreeBF.EvaluateIndex | java/QMCMinimizer/src/main/java/hr/fer/zemris/bool/fimpl/OperatorTreeBF.java:164-182 | IndexOutOfBounds iff a domain name is missing from the tree; else the tree's value after the writes, which for a well-formed tree is its value at that row |
| OperatorTree.OperatorTreeBF.WriteIndex | java/QMCMinimizer/src/main/java/hr/fer/zemris/bool/fimpl/OperatorTreeBF.java:166-175 | the row's bits are written to the tree's variables iff the domain names are all in the tree |
| OperatorTree.OperatorTreeBF.HasMinterm | java/QMCMinimizer/src/main/java/hr/fer/zemris/bool/fimpl/OperatorTreeBF.java:137-139 | IndexOutOfBounds when a domain name is missing from the tree; else whether the tree's value after the writes is TRUE, which for a well-formed tree is whether the row evaluates to TRUE |
| OperatorTree.OperatorTreeBF.HasMaxterm | java/QMCMinimizer/src/main/java/hr/fer/zemris/bool/fimpl/OperatorTreeBF.java:145-147 | as `HasMinterm`, for FALSE |
| OperatorTree.OperatorTreeBF.HasDontCare | java/QMCMinimizer/src/main/java/hr/fer/zemris/bool/fimpl/OperatorTreeBF.java:153-155 | as `HasMinterm`, for DONT_CARE |
| OperatorTree.RowsWithMeaning | java/QMCMinimizer/src/main/java/hr/fer/zemris/bool/fimpl/OperatorTreeBF.java:86-95 | filtering rows by value succeeds iff every row evaluates, and then keeps exactly the rows of that value |
| OperatorTree.OperatorTreeBF.GetIndexes | java/QMCMinimizer/src/main/java/hr/fer/zemris/bool/fimpl/OperatorTreeBF.java:86-95 | IndexOutOfBounds for a non-empty range when a domain name is missing; for a well-formed tree, the rows of the range evaluating to TRUE, in order, or the first evaluation's failure; for any tree, a success lists at most as many rows as the range, all from it |
| OperatorTree.OperatorTreeBF.GetDontCares | java/QMCMinimizer/src/main/java/hr/fer/zemris/bool/fimpl/OperatorTreeBF.java:98-107 | as `GetIndexes`, for the rows evaluating to DONT_CARE, with the same bound for any tree |
| OperatorTree.RowsOfTable | java/QMCMinimizer/src/main/java/hr/fer/zemris/bool/fimpl/OperatorTreeBF.java:75-83 | the rows found are inside the table and are exactly those of the value |
| OperatorTree.RowsDisjoint | java/QMCMinimizer/src/main/java/hr/fer/zemris/bool/fimpl/OperatorTreeBF.java:75-83 | the TRUE rows and the DONT_CARE rows are valid, disjoint index lists for the helper |
| OperatorTree.NewMintermHelper | java/QMCMinimizer/src/main/java/hr/fer/zemris/bool/fimpl/OperatorTreeBF.java:80-82 | a fresh helper in minterm mode over the given minterms and don't-cares |
| OperatorTree.OperatorTreeBF.InitTraversalHelper | java/QMCMinimizer/src/main/java/hr/fer/zemris/bool/fimpl/OperatorTreeBF.java:75-83 | on success a fresh helper is built; IndexOutOfBounds when a domain name is missing and the table is not empty (up to 30 variables); for a well-formed tree it succeeds iff every row of the table evaluates |
| OperatorTree.OperatorTreeBF.TableIsTree | java/QMCMinimizer/src/main/java/hr/fer/zemris/bool/fimpl/OperatorTreeBF.java:75-83 | once built, a row is a minterm, don't-care or maxterm iff the tree evaluates there to TRUE, DONT_CARE or FALSE |
| OperatorTree.OperatorTreeBF.Minterms | java/QMCMinimizer/src/main/java/hr/fer/zemris/bool/fimpl/OperatorTreeBF.java:188-190 | a sorted list holding exactly the helper's minterms |
| OperatorTree.OperatorTreeBF.Maxterms | java/QMCMinimizer/src/main/java/hr/fer/zemris/bool/fimpl/OperatorTreeBF.java:196-198 | a sorted list holding exactly the helper's maxterms |
| OperatorTree.OperatorTreeBF.DontCares | java/QMCMinimizer/src/main/java/hr/fer/zemris/bool/fimpl/OperatorTreeBF.java:204-206 | a sorted list holding exactly the helper's don't-cares |
| OperatorTree.OperatorTreeBF.GetValue | java/QMCMinimizer/src/main/java/hr/fer/zemris/bool/fimpl/OperatorTreeBF.java:121-123 | the tree's value for the variables' current values |
| OperatorTree.OperatorTreeBF.Create | java/QMCMinimizer/src/main/java/hr/fer/zemris/bool/fimpl/OperatorTreeBF.java:50-61 | on success a fresh, built function with the given name, tree and domain names; IndexOutOfBounds when a domain name is missing from the tree (up to 30 variables); for a well-formed tree it succeeds iff every row of the table evaluates |
| Implicants.Implicant.constructor | java/QMCMinimizer/src/main/java/hr/fer/zemris/bool/qmc/Implicant.java:32-35 | the given minterms and mask, and no alias |
| Implicants.Implicant.SetAlias | java/QMCMinimizer/src/main/java/hr/fer/zemris/bool/qmc/Implicant.java:69-71 | the alias becomes the argument |
| Implicants.Implicant.Equals | java/QMCMinimizer/src/main/java/hr/fer/zemris/bool/qmc/Implicant.java:124-148 | equal iff aliases, masks and minterm sets are equal |
| Implicants.GetMaskByAlias | java/QMCMinimizer/src/main/java/hr/fer/zemris/bool/qmc/Implicant.java:80-88 | the loop answers `MaskByAlias` from the first implicant |
| Implicants.MaskByAliasMeaning | java/QMCMinimizer/src/main/java/hr/fer/zemris/bool/qmc/Implicant.java:80-88 | null iff no implicant carries the alias; the mask of the first one that does; NullPointer if an implicant without an alias comes first |
| Symbolic.NewConjunction | java/QMCMinimizer/src/main/java/hr/fer/zemris/bool/qmc/symbolic/SymbolicConjunction.java:26-33 | IllegalArgument iff there are no operands, else a conjunction of exactly those operands |
| Symbolic.NewDisjunction | java/QMCMinimizer/src/main/java/hr/fer/zemris/bool/qmc/symbolic/SymbolicDisjunction.java:24-31 | IllegalArgument iff there are no operands, else a disjunction of exactly those operands |
| Symbolic.EqualsIsEquality | java/QMCMinimizer/src/main/java/hr/fer/zemris/bool/qmc/symbolic/SymbolicOperation.java:64-78 | the `equals` of symbols and operations is structural equality |
| Symbolic.SimplifyConjunction | java/QMCMinimizer/src/main/java/hr/fer/zemris/bool/qmc/symbolic/SymbolicConjunction.java:52-62 | the conjunction of the operands' operands, flattened one level, well formed |
| Symbolic.FlattenHolds | java/QMCMinimizer/src/main/java/hr/fer/zemris/bool/qmc/symbolic/SymbolicConjunction.java:52-62 | flattening a conjunction of products does not change its truth under any assignment |
| Symbolic.FlattenAgain | java/QMCMinimizer/src/main/java/hr/fer/zemris/bool/qmc/symbolic/SymbolicConjunction.java:52-62 | flattening a product of symbols again gives the same members |
| Symbolic.AbsorbedAt | java/QMCMinimizer/src/main/java/hr/fer/zemris/bool/qmc/symbolic/SymbolicDisjunction.java:68-84 | the inner loop removes the element iff another element of the current list absorbs it |
| Symbolic.RemoveIrrelevant | java/QMCMinimizer/src/main/java/hr/fer/zemris/bool/qmc/symbolic/SymbolicDisjunction.java:62-88 | the loops answer `RemoveIrrelevantSpec(rest)` |
| Symbolic.PruneSubsequence | java/QMCMinimizer/src/main/java/hr/fer/zemris/bool/qmc/symbolic/SymbolicDisjunction.java:62-88 | the survivors are a subsequence of the list, in their order |
| Symbolic.RemoveIrrelevantAntichain | java/QMCMinimizer/src/main/java/hr/fer/zemris/bool/qmc/symbolic/SymbolicDisjunction.java:62-88 | no survivor absorbs another survivor |
| Symbolic.PruneWitness | java/QMCMinimizer/src/main/java/hr/fer/zemris/bool/qmc/symbolic/SymbolicDisjunction.java:62-88 | every element of the list contains all operands of some survivor |
| Symbolic.PruneHolds | java/QMCMinimizer/src/main/java/hr/fer/zemris/bool/qmc/symbolic/SymbolicDisjunction.java:62-88 | for a sum of products, removing absorbed terms does not change its truth under any assignment |
| Symbolic.SymbolicDisjunction.Create | java/QMCMinimizer/src/main/java/hr/fer/zemris/bool/qmc/symbolic/SymbolicDisjunction.java:24-31 | IllegalArgument iff there are no operands |
| Symbolic.SymbolicDisjunction.Evaluate | java/QMCMinimizer/src/main/java/hr/fer/zemris/bool/qmc/symbolic/SymbolicDisjunction.java:42-45 | a disjunction of the current operands |
| Symbolic.SymbolicDisjunction.Simplify | java/QMCMinimizer/src/main/java/hr/fer/zemris/bool/qmc/symbolic/SymbolicDisjunction.java:50-52 | the receiver's operands become the absorption-pruned list, and the result is their disjunction |
| Symbolic.PairProducts | java/QMCMinimizer/src/main/java/hr/fer/zemris/bool/qmc/symbolic/SymbolicConjunction.java:97-108 | the double loop builds `Products(ops1, ops2)`: the flattened pair products, row by row |
| Symbolic.ProductsMembers | java/QMCMinimizer/src/main/java/hr/fer/zemris/bool/qmc/symbolic/SymbolicConjunction.java:97-108 | the products are exactly the flattened conjunctions of one operand of each side |
| Symbolic.ProductsHold | java/QMCMinimizer/src/main/java/hr/fer/zemris/bool/qmc/symbolic/SymbolicConjunction.java:97-108 | the disjunction of the products holds iff some operand of each side holds (distributivity) |
| Symbolic.MultiplyMeaning | java/QMCMinimizer/src/main/java/hr/fer/zemris/bool/qmc/symbolic/SymbolicConjunction.java:89-111 | multiplying two sums holds iff both sums hold |
| Symbolic.Distribute2 | java/QMCMinimizer/src/main/java/hr/fer/zemris/bool/qmc/symbolic/SymbolicConjunction.java:89-111 | the recursion answers the single expression `DistributeFrom(start, operands)` |
| Symbolic.DistributeMeaning | java/QMCMinimizer/src/main/java/hr/fer/zemris/bool/qmc/symbolic/SymbolicConjunction.java:89-111 | the distributed expression is a sum that holds iff the start and every clause hold |
| Symbolic.Distribute | java/QMCMinimizer/src/main/java/hr/fer/zemris/bool/qmc/symbolic/SymbolicConjunction.java:71-80 | IndexOutOfBounds for no operands, the operand itself for one, else the distribution of the rest into the first |
| Symbolic.EvaluateConjunction | java/QMCMinimizer/src/main/java/hr/fer/zemris/bool/qmc/symbolic/SymbolicConjunction.java:44-46 | the answer is `EvaluateSpec(operands)` |
| Symbolic.EvaluateMeaning | java/QMCMinimizer/src/main/java/hr/fer/zemris/bool/qmc/symbolic/SymbolicConjunction.java:44-46 | for a product of sums, the evaluated sum of products holds under exactly the assignments under which the conjunction holds |
| Symbolic.Evaluate | java/QMCMinimizer/src/main/java/hr/fer/zemris/bool/qmc/symbolic/Symbol.java:34-36 | a symbol or a disjunction is its own evaluation; a conjunction is distributed |
| Symbolic.Simplify | java/QMCMinimizer/src/main/java/hr/fer/zemris/bool/qmc/symbolic/Symbol.java:68-70 | a symbol stays, a conjunction is flattened, a disjunction is pruned; the result is well formed and, when no operand is a disjunction, true under exactly the same assignments |
| Symbolic.ToString | java/QMCMinimizer/src/main/java/hr/fer/zemris/bool/qmc/symbolic/SymbolicDisjunction.java:94-106 | the loop builds `Show(e)` |
| Symbolic.SumSeparators | java/QMCMinimizer/src/main/java/hr/fer/zemris/bool/qmc/symbolic/SymbolicDisjunction.java:94-106 | a disjunction of n plain symbols prints with n - 1 '+' signs |
| InsertionSort.Swap | java/QMCMinimizer/src/main/java/hr/fer/zemris/java/sorters/StraightInsertionionSorter.java:39-43 | the two elements trade places, nothing else changes |
| InsertionSort.InsertDown | java/QMCMinimizer/src/main/java/hr/fer/zemris/java/sorters/StraightInsertionionSorter.java:25-28 | the element at i sinks into the sorted prefix: a permutation that leaves the suffix alone and makes the prefix up to i sorted |
| InsertionSort.SortRange | java/QMCMinimizer/src/main/java/hr/fer/zemris/java/sorters/StraightInsertionionSorter.java:23-30 | IndexOutOfBounds iff some positive index of the range is not below the length; either way a permutation that keeps the elements from the end on, sorts everything up to the end when everything before the start was sorted, and leaves a sorted array as it is |
| InsertionSort.Sort | java/QMCMinimizer/src/main/java/hr/fer/zemris/java/sorters/StraightInsertionionSorter.java:14-16 | the whole array ends sorted and a permutation of the original |
| Sat.IntToBoolean | java/3SATSolver/src/hr/fer/zemris/trisat/BitVector.java:98-113 | the loop builds `IntBits(n)` in a new array |
| Sat.IntBitsMeaning | java/3SATSolver/src/hr/fer/zemris/trisat/BitVector.java:98-113 | a positive n gives its binary digits without leading zeros, read back as n |
| Sat.BitString | java/3SATSolver/src/hr/fer/zemris/trisat/BitVector.java:74-83 | one character per bit, '1' iff the bit is set and '0' otherwise |
| Sat.BitStringRoundTrip | java/3SATSolver/src/hr/fer/zemris/trisat/BitVector.java:74-83 | reading the printed bits gives them back |
| Sat.BitVector.constructor | java/3SATSolver/src/hr/fer/zemris/trisat/BitVector.java:38-40 | a new array of the given bits |
| Sat.BitVector.FromInt | java/3SATSolver/src/hr/fer/zemris/trisat/BitVector.java:47-49 | a new array of the binary digits of n |
| Sat.BitVector.Get | java/3SATSolver/src/hr/fer/zemris/trisat/BitVector.java:57-59 | IndexOutOfBounds iff the index is outside, else the bit |
| Sat.BitVector.ToString | java/3SATSolver/src/hr/fer/zemris/trisat/BitVector.java:74-83 | the loop builds `BitString` of the bits |
| Sat.BitVector.Copy | java/3SATSolver/src/hr/fer/zemris/trisat/BitVector.java:90-92 | a fresh mutable vector with the same bits; it equals the original iff the original is mutable, since `equals` compares classes |
| Sat.BitVector.Equals | java/3SATSolver/src/hr/fer/zemris/trisat/BitVector.java:130-141 | equal iff of the same class and with the same bits |
| Sat.BitVector.Set | java/3SATSolver/src/hr/fer/zemris/trisat/MutableBitVector.java:38-40 | IndexOutOfBounds iff the index is outside, nothing changed then; else only that bit changes |
| Sat.GetLiteral | java/3SATSolver/src/hr/fer/zemris/trisat/Clause.java:42-49 | IllegalArgument iff the index is outside, else that literal |
| Sat.Abs | java/3SATSolver/src/hr/fer/zemris/trisat/Clause.java:63 | for every literal but the smallest `int`, a non-negative value equal to it or its negation |
| Sat.ClauseIsSatisfied | java/3SATSolver/src/hr/fer/zemris/trisat/Clause.java:57-74 | the loop answers `ClauseSatisfied` of the assignment's bits |
| Sat.ClauseMeaning | java/3SATSolver/src/hr/fer/zemris/trisat/Clause.java:57-74 | false iff every literal fails; IndexOutOfBounds at the first out-of-range literal reached; true at the first literal that holds |
| Sat.ClauseInRange | java/3SATSolver/src/hr/fer/zemris/trisat/Clause.java:57-74 | with all literals naming variables of the assignment, satisfied iff some literal holds |
| Sat.ClauseEquals | java/3SATSolver/src/hr/fer/zemris/trisat/Clause.java:114-125 | equal iff the literal lists are equal |
| Sat.ClauseToString | java/3SATSolver/src/hr/fer/zemris/trisat/Clause.java:80-97 | the loop builds `ClauseString(c)` |
| Sat.ClauseStringSeparators | java/3SATSolver/src/hr/fer/zemris/trisat/Clause.java:80-97 | a clause of n literals prints with n - 1 '+' signs and no parenthesis |
| Sat.SATFormula.constructor | java/3SATSolver/src/hr/fer/zemris/trisat/SATFormula.java:23-26 | keeps the variable count and the caller's clause array |
| Sat.SATFormula.GetClause | java/3SATSolver/src/hr/fer/zemris/trisat/SATFormula.java:35-40 | IllegalArgument iff the index is outside, else that clause |
| Sat.SATFormula.IsSatisfied | java/3SATSolver/src/hr/fer/zemris/trisat/SATFormula.java:66-80 | the loop answers `FormulaSatisfied` of the clauses and bits |
| Sat.FormulaMeaning | java/3SATSolver/src/hr/fer/zemris/trisat/SATFormula.java:66-80 | for an assignment every clause can check, true iff there are clauses and all are satisfied |
| Sat.FormulaFailure | java/3SATSolver/src/hr/fer/zemris/trisat/SATFormula.java:66-80 | `isSatisfied` throws iff some clause throws before any clause is unsatisfied |
| Sat.SATFormula.Equals | java/3SATSolver/src/hr/fer/zemris/trisat/SATFormula.java:98-111 | equal iff the clauses and the variable counts are equal |
| Sat.SATFormula.ToString | java/3SATSolver/src/hr/fer/zemris/trisat/SATFormula.java:117-126 | the loop builds `FormulaString` of the clauses |
| Sat.FormulaStringParentheses | java/3SATSolver/src/hr/fer/zemris/trisat/SATFormula.java:117-126 | one opening parenthesis per clause |
| Sat.Fitness | java/3SATSolver/src/hr/fer/zemris/trisat/ISATAlgorithm.java:27-39 | the loop answers `FitnessUpTo` over all clauses |
| Sat.FitnessMeaning | java/3SATSolver/src/hr/fer/zemris/trisat/ISATAlgorithm.java:27-39 | the fitness is the number of satisfied clauses, at most their number, and equal to it iff all are satisfied |
| Sat.FitnessSatisfied | java/3SATSolver/src/hr/fer/zemris/trisat/ISATAlgorithm.java:27-39 | full fitness iff the formula is satisfied |
| Sat.FitnessFailure | java/3SATSolver/src/hr/fer/zemris/trisat/ISATAlgorithm.java:27-39 | a failing clause check makes the whole fitness fail with it |
| Neighbourhood.Flip | java/3SATSolver/src/hr/fer/zemris/trisat/BitVectorNGenerator.java:41-56 | the vector with bit k flipped and every other bit kept |
| Neighbourhood.NeighbourhoodIsDistanceOne | java/3SATSolver/src/hr/fer/zemris/trisat/BitVectorNGenerator.java:41-56 | a vector is at Hamming distance one iff it is a flip of one bit |
| Neighbourhood.FlipsDistinct | java/3SATSolver/src/hr/fer/zemris/trisat/BitVectorNGenerator.java:41-56 | a flip differs from the original, flips of different bits differ, and flipping twice restores |
| Neighbourhood.Generator.constructor | java/3SATSolver/src/hr/fer/zemris/trisat/BitVectorNGenerator.java:22-26 | keeps the assignment, with the neighbourhood size equal to its length |
| Neighbourhood.Generator.Iterator | java/3SATSolver/src/hr/fer/zemris/trisat/BitVectorNGenerator.java:32-34 | a fresh iterator at position 0 over the neighbourhood |
| Neighbourhood.Generator.CreateNeighbourhood | java/3SATSolver/src/hr/fer/zemris/trisat/BitVectorNGenerator.java:41-56 | one fresh mutable vector per bit, vector i flipping bit i, no two sharing storage |
| Neighbourhood.NeighbourIterator.constructor | java/3SATSolver/src/hr/fer/zemris/trisat/BitVectorNGenerator.java:70-73 | position 0 over the given generator |
| Neighbourhood.NeighbourIterator.Next | java/3SATSolver/src/hr/fer/zemris/trisat/BitVectorNGenerator.java:81-89 | the neighbour flipping the bit at the position, which then advances; IndexOutOfBounds past the last bit, with the position unchanged |
| Exhaustive.Combinations | java/3SATSolver/src/hr/fer/zemris/trisat/algorithms/ExhaustiveSearch.java:42-52 | StackOverflow iff n < 1, the recursion having no base case below 1 |
| Exhaustive.CombinationsMeaning | java/3SATSolver/src/hr/fer/zemris/trisat/algorithms/ExhaustiveSearch.java:55-78 | 2^n assignments of n variables, every assignment among them, no two equal |
| Exhaustive.CombinationsSize | java/3SATSolver/src/hr/fer/zemris/trisat/algorithms/ExhaustiveSearch.java:55-78 | for n ≥ 1 there are 2^n combinations, each of n values |
| Exhaustive.CombinationsIndex | java/3SATSolver/src/hr/fer/zemris/trisat/algorithms/ExhaustiveSearch.java:55-78 | the position at which a given assignment is enumerated |
| Exhaustive.CombinationsDistinct | java/3SATSolver/src/hr/fer/zemris/trisat/algorithms/ExhaustiveSearch.java:55-78 | no assignment is enumerated twice |
| Exhaustive.CombinationsOrder | java/3SATSolver/src/hr/fer/zemris/trisat/algorithms/ExhaustiveSearch.java:55-78 | position j of the k-th assignment is false iff bit j of k is set, so the enumeration runs from all true to all false |
| Exhaustive.ListToPrimitiveArray | java/3SATSolver/src/hr/fer/zemris/trisat/algorithms/ExhaustiveSearch.java:81-92 | a new array holding the list's values |
| Exhaustive.BooleanCombinations | java/3SATSolver/src/hr/fer/zemris/trisat/algorithms/ExhaustiveSearch.java:42-52 | the enumeration as new arrays, in order, or its StackOverflow |
| Exhaustive.Solve | java/3SATSolver/src/hr/fer/zemris/trisat/algorithms/ExhaustiveSearch.java:22-39 | the first satisfying assignment as a new immutable vector, or the exception `SolveSpec` names |
| Exhaustive.ModelsMeaning | java/3SATSolver/src/hr/fer/zemris/trisat/algorithms/ExhaustiveSearch.java:22-39 | the models collected from the candidates are exactly the satisfying candidates |
| Exhaustive.ModelsFailure | java/3SATSolver/src/hr/fer/zemris/trisat/algorithms/ExhaustiveSearch.java:22-39 | once a candidate's check throws, the whole search throws the same way |
| Exhaustive.SolveMeaning | java/3SATSolver/src/hr/fer/zemris/trisat/algorithms/ExhaustiveSearch.java:22-39 | for a formula over n ≥ 1 variables, a solution is found iff one exists, and it satisfies the formula |
| Exhaustive.ModelsFirst | java/3SATSolver/src/hr/fer/zemris/trisat/algorithms/ExhaustiveSearch.java:22-39 | the first model collected is a candidate that every earlier candidate fails to satisfy; with no model, every candidate fails |
| Exhaustive.SolveFirst | java/3SATSolver/src/hr/fer/zemris/trisat/algorithms/ExhaustiveSearch.java:22-39 | a solution found is the first assignment of the enumeration that satisfies the formula |
| Exhaustive.StringArray | java/3SATSolver/src/hr/fer/zemris/trisat/algorithms/ExhaustiveSearch.java:98-107 | the assignment as ones and zeros |
| GreatestCycle.NewTuple | java/TG-1b-0036444000/src/tg/firstB/GreatestCycle.java:196-199 | the first n elements; NegativeArraySize for n < 0 and IndexOutOfBounds for too few elements |
| GreatestCycle.NewPair | java/TG-1b-0036444000/src/tg/firstB/GreatestCycle.java:219-223 | the pair of the first two elements; a failure iff there are fewer |
| GreatestCycle.EqualsAsWrittenAsymmetric | java/TG-1b-0036444000/src/tg/firstB/GreatestCycle.java:234-246 | as written, `equals` accepts (1,2) against (3,1) but not the converse, and their hash codes differ |
| GreatestCycle.EqualsMeaning | java/TG-1b-0036444000/src/tg/firstB/GreatestCycle.java:226-232 | the corrected `equals` holds iff the pairs have the same two ends; it is an equivalence and agrees with `hashCode` |
| GreatestCycle.MatrixEdgesMeaning | java/TG-1b-0036444000/src/tg/firstB/GreatestCycle.java:101-111 | an edge (i, j) is listed iff entry (i, j) of the matrix is 1, in row-major order |
| GreatestCycle.AdjacencyListGraph.Create | java/TG-1b-0036444000/src/tg/firstB/GreatestCycle.java:95-112 | IllegalArgument when the list capacity `n*n` wraps around to a negative `int`, else IndexOutOfBounds iff a row is shorter than n; on success vertices 0..n-1 and the matrix's edges |
| GreatestCycle.AdjacencyListGraph.AdjacentEdges | java/TG-1b-0036444000/src/tg/firstB/GreatestCycle.java:169-180 | the loop keeps `Adjacent(edges, v)` |
| GreatestCycle.AdjacentMembers | java/TG-1b-0036444000/src/tg/firstB/GreatestCycle.java:169-180 | the adjacent edges are exactly the stored edges leaving v |
| GreatestCycle.AdjacentOrdered | java/TG-1b-0036444000/src/tg/firstB/GreatestCycle.java:169-180 | from a matrix, the edges leaving v come in increasing target order |
| GreatestCycle.IndexOf | java/TG-1b-0036444000/src/tg/firstB/GreatestCycle.java:155 | the first position of the vertex on the path |
| GreatestCycle.AdjacencyListGraph.FindCycles | java/TG-1b-0036444000/src/tg/firstB/GreatestCycle.java:143-162 | the recorded cycles grow by exactly `SearchFrom(path, current)`'s cycles, and its error is returned |
| GreatestCycle.AdjacencyListGraph.VisitEdges | java/TG-1b-0036444000/src/tg/firstB/GreatestCycle.java:149-161 | the loop over the edges leaving the path's end records `SearchEdges`'s cycles and stops at its error |
| GreatestCycle.AdjacencyListGraph.VisitEdge | java/TG-1b-0036444000/src/tg/firstB/GreatestCycle.java:151-160 | one edge records the cycle it closes, then the search from its target when the target is off the path |
| GreatestCycle.SearchFromCycles | java/TG-1b-0036444000/src/tg/firstB/GreatestCycle.java:143-162 | every recorded sequence is a cycle of the graph: distinct vertices, consecutive edges, an edge back to the start, never of length two |
| GreatestCycle.DeepSearchSucceeds | java/TG-1b-0036444000/src/tg/firstB/GreatestCycle.java:143-162 | below the top call, the search never fails |
| GreatestCycle.SearchFailsOnLoop | java/TG-1b-0036444000/src/tg/firstB/GreatestCycle.java:149-154 | the top call fails with IndexOutOfBounds iff the start vertex has a loop |
| GreatestCycle.AdjacencyListGraph.FindAllCycles | java/TG-1b-0036444000/src/tg/firstB/GreatestCycle.java:119-134 | IndexOutOfBounds for an empty graph; else searches from vertex 0, fails with the search's error, or answers the vertex sets of all recorded cycles |
| GreatestCycle.AllCyclesMeaning | java/TG-1b-0036444000/src/tg/firstB/GreatestCycle.java:119-134 | the search from vertex 0 records only cycles of the graph, and fails iff vertex 0 has a loop |

## Left out

- Null arguments and null list elements are not modelled: Dafny references and sequences here are non-null, so each `NullPointerException` on a `null` argument is absent. Only a `null` the code itself produces is modelled: the `null` masks of `combine` and `getMaskByAlias`, and the `null` solution of `solve`.
- `hashCode` is modelled only for `Pair`. The other `hashCode` methods only feed hash collections, and the model states those collections' contents directly.
- Trivial getters (`getName`, `getDomain`, `getSize`, `getMask`, `getMinterms`, `getAlias`, `getOperands`, `getMasks`, `getTableSize`, …) are plain field reads.
- `Mask.clone` and `Symbol` itself are not separate members: masks and symbols are immutable values.
- The `toString` methods of `Implicant`, `Tuple` and `AdjacencyListGraph` only build debugging text; they are not modelled. `BooleanSwissKnife.printList` and all printing to the console are output only.
- `GreatestCycle.loadIntMatrix` and `main` are not modelled: they read a file and print results. The matrix is a parameter, a sequence of rows.
- The randomised `BitVector(Random, int)` constructor is not modelled: its randomness is outside a deterministic model.
- `IterativeSearch`, `IterativeHardCaseConvergingSearch`, `SATFormulaStats`, `TriSATSolver`, `QSortParallel2` and `linsys.py` are not part of this model. They are drivers, statistics, randomised searches, a parallel sorter and a Python script outside the core.
- `OutOfMemoryError`s (a list of capacity `n*n` that does not wrap but is too large, 2^n combinations) are not modelled.
- Sat.Fitness: answers a natural number where the source answers a `double` counting the same clauses, because floating point is not modelled.
- GrandUnifier.BFGrandUnifier.GetValueNoDontCares: states the row index only for up to 31 variables, because beyond that the `int` weight saturates and the packed index has no simple meaning.
- GrandUnifier.BFGrandUnifier.GetValue: without don't-cares states only that the answer is a success for more than 31 variables, not which value it is, for the same reason.
- Indexed.IndexedBF.GetValue: without don't-cares states only that the answer is a success for more than 31 variables, not which value it is, for the same reason.
- MaskBased.MaskBasedBF.GetValue: without don't-cares states only that the answer is a success for more than 31 variables, not which value it is, for the same reason.
- MaskBased.ListMaskToIndex: states the index only for up to 31 variables, for the same reason.
- MaskBased.IndexesFromMasks: states the rows only for up to 31 variables, for the same reason.
- OperatorTree.OperatorTreeBF.EvaluateIndex: states the row's value only for a well-formed tree, one whose first m domain names are distinct and are its names, each held by one variable object. For other trees it states the failure and the written bits only.
- OperatorTree.OperatorTreeBF.InitTraversalHelper: states when it succeeds only for a well-formed tree, for the same reason.
- OperatorTree.OperatorTreeBF.GetIndexes: for a tree that covers the domain but is not well formed, states only that a success lists rows of the range, at most as many, for the same reason.
- OperatorTree.OperatorTreeBF.GetDontCares: for a tree that covers the domain but is not well formed, states only that a success lists rows of the range, at most as many, for the same reason.
- OperatorTree.OperatorTreeBF.Create: states when it succeeds only for a well-formed tree, for the same reason.
- Symbolic.EvaluateMeaning: states the meaning of `evaluate` only for a product of sums. That is the shape Petrick's method builds; for deeper nesting the source's distribution does not preserve truth in any simple sense.
- Symbolic.RemoveIrrelevant: `removeIrrelevant` compares conjunctions by reference. The model compares list positions, so two equal conjunctions at different positions count as different, as two distinct objects would.
- Symbolic.RemoveIrrelevantAntichain: implies that at most one of several conjunctions with the same operands survives, but it does not state that the survivor is the last of them.
- Symbolic.SymbolicDisjunction.Simplify: the disjunction's list is modelled as owned by the object. Aliasing of that list by the caller is not modelled.
- GreatestCycle.AdjacencyListGraph.FindCycles: the path and the visited set are passed by value, as the recursive calls pass fresh copies. The top call's caller-visible mutation of `path` is not modelled, since `findAllCycles` discards it.
- GreatestCycle.AdjacencyListGraph.Create: rows are sequences, so a `null` row is not modelled.
- SwissKnife.Range: requires an empty range or a positive step whose last increment stays inside `int`. A zero step never ends, and a negative step or an overflowing last increment wraps `i` around `int`, which the model does not follow; every caller passes step 1 with an `int` end, which meets the requires.
- Operator sources are immutable values, so `BooleanOperator.getSources` handing out the constructor's own list (aliasing) is not modelled.
- The iterables (`mintermIterable`, …) are modelled as sorted sequences holding the same indexes.
- Iterator removal is not modelled: `remove` is not overridden and throws by default.
- `Implicant`'s minterm set is a value: the source's set is never mutated after construction.

## Findings

| source | as written | input that shows it | evidently intended | confidence | as-written member | corrected member |
|---|---|---|---|---|---|---|
| java/QMCMinimizer/src/main/java/hr/fer/zemris/bool/fimpl/BFGrandUnifier.java:150-169 | in maxterm mode without don't-cares `getValue` answers TRUE at a row listed as a maxterm and FALSE at every minterm (the don't-care branch, complementing the sum of minterm products, likewise answers TRUE at the maxterms) | `IndexedBF` with `indexesAreMinterms = false`, indexes `[0]`, no don't-cares, one variable set FALSE (row 0): answers TRUE | FALSE at a maxterm, TRUE at a minterm | not executed | GrandUnifier.BFGrandUnifier.MaxtermModeComplement | GrandUnifier.BFGrandUnifier.IntendedValueMeaning |
| java/TG-1b-0036444000/src/tg/firstB/GreatestCycle.java:234-246 | the second test of `Pair.equals` checks `fst == other.snd` twice instead of also checking `snd == other.fst`, so it is not symmetric and disagrees with `hashCode` | `new Pair(1, 2).equals(new Pair(3, 1))` is true while the converse is false | equal iff the pairs have the same two ends, in either order | not executed | GreatestCycle.EqualsAsWrittenAsymmetric | GreatestCycle.EqualsMeaning |
