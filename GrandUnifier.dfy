/**
 * `BFGrandUnifier`: the minterm / maxterm / don't-care bookkeeping shared by the indexed and the
 * mask-based Boolean functions, and their evaluation.
 */
module GrandUnifier {
  import opened Wrappers
  import opened Values
  import opened Bits
  import opened Kleene
  import opened Variables
  import opened BooleanSources
  import opened SwissKnife

  // ---------------------------------------------------------------- Collections.sort

  predicate Sorted(s: seq<Int32>) {
    forall i, j :: 0 <= i < j < |s| ==> s[i] <= s[j]
  }

  /** `x` put into the sorted `s` before the first larger element. */
  function Insert(x: Int32, s: seq<Int32>): (r: seq<Int32>)
    requires Sorted(s)
    ensures Sorted(r)
    ensures multiset(r) == multiset(s) + multiset{x}
    ensures |r| == |s| + 1 && (r[0] == x || (s != [] && r[0] == s[0]))
  {
    if s == [] then [x]
    else if x <= s[0] then
      SortedCons(x, s);
      [x] + s
    else
      SortedTail(s);
      var rest := Insert(x, s[1..]);
      assert s == [s[0]] + s[1..];
      assert multiset(s) == multiset{s[0]} + multiset(s[1..]);
      SortedCons(s[0], rest);
      [s[0]] + rest
  }

  lemma SortedTail(s: seq<Int32>)
    requires Sorted(s) && s != []
    ensures Sorted(s[1..])
  {
    var tail := s[1..];
    forall i, j | 0 <= i < j < |tail| ensures tail[i] <= tail[j] {
      assert tail[i] == s[i + 1] && tail[j] == s[j + 1];
    }
  }

  lemma SortedCons(a: Int32, s: seq<Int32>)
    requires Sorted(s) && (s != [] ==> a <= s[0])
    ensures Sorted([a] + s)
  {
    var r := [a] + s;
    forall i, j | 0 <= i < j < |r| ensures r[i] <= r[j] {
      assert r[j] == s[j - 1];
      if i > 0 {
        assert r[i] == s[i - 1];
      } else {
        assert s[0] <= s[j - 1];
      }
    }
  }

  /** What `Collections.sort` leaves in a list of integers: its elements in ascending order. */
  function Sort(s: seq<Int32>): (r: seq<Int32>)
    ensures Sorted(r)
    ensures multiset(r) == multiset(s)
  {
    if s == [] then []
    else
      assert s == [s[0]] + s[1..];
      Insert(s[0], Sort(s[1..]))
  }

  /** Sorting keeps exactly the elements. */
  lemma SortMembers(s: seq<Int32>, x: int)
    ensures x in Sort(s) <==> x in s
  {
    assert x in Sort(s) <==> x in multiset(Sort(s));
    assert x in s <==> x in multiset(s);
  }

  /** A `List<Integer>` owned by the caller: the don't-care list, which the helper keeps and sorts. */
  class IntList {
    var items: seq<Int32>

    constructor (items: seq<Int32>)
      ensures this.items == items
    {
      this.items := items;
    }

    /** `Collections.sort` on the list: ascending order, same elements. */
    method SortInPlace()
      modifies this
      ensures items == Sort(old(items))
    {
      items := Sort(items);
    }
  }

  // ---------------------------------------------------------------- partition of the table

  /** The rows 0 .. tableSize - 1 of the truth table (none when the size has wrapped to 0 or below). */
  function TableRange(tableSize: Int32): (r: seq<Int32>)
    ensures |r| == if tableSize < 0 then 0 else tableSize
  {
    seq(if tableSize < 0 then 0 else tableSize, k requires 0 <= k < tableSize => k as Int32)
  }

  /** `removeAll(xs)` on a list: the elements not in `xs`, in their order. */
  function RemoveAll(s: seq<Int32>, xs: seq<Int32>): (r: seq<Int32>)
    ensures |r| <= |s|
    ensures forall i :: 0 <= i < |r| ==> r[i] in s && r[i] !in xs
    ensures forall i :: 0 <= i < |s| && s[i] !in xs ==> s[i] in r
  {
    if s == [] then []
    else
      var init := s[..|s| - 1];
      assert s == init + [s[|s| - 1]];
      RemoveAll(init, xs) + (if s[|s| - 1] in xs then [] else [s[|s| - 1]])
  }

  /** `range(0, tableSize, 1)` with the given indexes and don't-cares removed. */
  function Others(tableSize: Int32, indexes: seq<Int32>, dontCares: seq<Int32>): seq<Int32> {
    RemoveAll(RemoveAll(TableRange(tableSize), indexes), dontCares)
  }

  /** The remaining rows are the rows of the table that are neither given index nor don't-care. */
  lemma OthersMeaning(tableSize: Int32, indexes: seq<Int32>, dontCares: seq<Int32>, k: Int32)
    ensures k in Others(tableSize, indexes, dontCares) <==>
      (0 <= k < tableSize && k !in indexes && k !in dontCares)
  {
    var all := TableRange(tableSize);
    var first := RemoveAll(all, indexes);
    var second := RemoveAll(first, dontCares);
    if k in second {
      var i :| 0 <= i < |second| && second[i] == k;
      assert second[i] in first;
      var j :| 0 <= j < |first| && first[j] == k;
      assert first[j] in all;
    }
    if 0 <= k < tableSize && k !in indexes && k !in dontCares {
      assert all[k] == k;
      assert k in first;
      var j :| 0 <= j < |first| && first[j] == k;
    }
  }

  /** All elements lie in the table. */
  predicate InTable(s: seq<Int32>, tableSize: Int32) {
    forall i :: 0 <= i < |s| ==> 0 <= s[i] < tableSize
  }

  predicate ExactlyOneOf(a: bool, b: bool, c: bool) {
    (a && !b && !c) || (!a && b && !c) || (!a && !b && c)
  }

  predicate Disjoint(a: seq<Int32>, b: seq<Int32>) {
    forall i, j :: 0 <= i < |a| && 0 <= j < |b| ==> a[i] != b[j]
  }

  /**
   * For indexes and don't-cares inside the table and disjoint, each row of the table is exactly
   * one of: a given index, a don't-care, a remaining row; and nothing outside the table is any.
   */
  lemma Partition(tableSize: Int32, indexes: seq<Int32>, dontCares: seq<Int32>, k: Int32)
    requires InTable(indexes, tableSize) && InTable(dontCares, tableSize)
    requires Disjoint(indexes, dontCares)
    ensures 0 <= k < tableSize ==>
      ExactlyOneOf(k in indexes, k in dontCares, k in Others(tableSize, indexes, dontCares))
    ensures !(0 <= k < tableSize) ==>
      k !in indexes && k !in dontCares && k !in Others(tableSize, indexes, dontCares)
  {
    OthersMeaning(tableSize, indexes, dontCares, k);
  }

  // ---------------------------------------------------------------- getValue, as written

  /** What the no-don't-care branch answers for the packed index `bin`. */
  function NoDontCareValue(indexesAreMinterms: bool, minterms: seq<Int32>, maxterms: seq<Int32>,
                           dontCares: seq<Int32>, bin: int): BooleanValue
  {
    if (indexesAreMinterms && bin in minterms) || (!indexesAreMinterms && bin in maxterms) then TRUE
    else if bin in dontCares then DONT_CARE
    else FALSE
  }

  /** The current values of the variables. */
  function DomainValues(domain: seq<BooleanVariable>): (r: seq<BooleanValue>)
    reads set x | x in domain
    ensures |r| == |domain|
    ensures forall i :: 0 <= i < |domain| ==> r[i] == domain[i].value
  {
    if domain == [] then []
    else DomainValues(domain[..|domain| - 1]) + [domain[|domain| - 1].value]
  }

  /** `(int) Math.pow(2, n - 1)`: 0 for n = 0, and saturated at the largest `int` from n = 32 on. */
  function FirstWeight(n: nat): Int32 {
    if n == 0 then 0
    else if n <= 31 then (Pow2Values(); Pow2Monotone(n - 1, 30); Pow2(n - 1))
    else TWO_31 - 1
  }

  /** The literal of variable `x` for a bit: the variable itself, or its NOT where the bit is FALSE. */
  function Literal(x: BooleanVariable, bit: BooleanValue): Source {
    if bit == FALSE then Operator(NOT, [Variable(x)]) else Variable(x)
  }

  /** The product (AND of literals) for one minterm index. */
  function Product(domain: seq<BooleanVariable>, index: Int32): (s: Source)
    ensures s.Operator? && s.kind == AND && |s.sources| == |domain|
  {
    var bits := BinaryValues(|domain|, index);
    AndOf(seq(|domain|, i requires 0 <= i < |domain| => Literal(domain[i], bits[i])))
  }

  /** The sum (OR) of the products of the minterm indexes. */
  function SumOfProducts(domain: seq<BooleanVariable>, minterms: seq<Int32>): (s: Source)
    ensures s.Operator? && s.kind == OR && |s.sources| == |minterms|
  {
    OrOf(seq(|minterms|, k requires 0 <= k < |minterms| => Product(domain, minterms[k])))
  }

  /** What the don't-care branch answers: the sum of products, complemented in maxterm mode. */
  function WithDontCareValue(indexesAreMinterms: bool, domain: seq<BooleanVariable>, minterms: seq<Int32>): Result<BooleanValue>
    reads VarsOf(SumOfProducts(domain, minterms))
  {
    match Value(SumOfProducts(domain, minterms))
    case Failure(e) => Failure(e)
    case Success(v) => Success(if indexesAreMinterms then v else Not(v))
  }

  /** Every variable holds TRUE or FALSE. */
  predicate TwoValuedDomain(domain: seq<BooleanVariable>)
    reads set x | x in domain
  {
    forall i :: 0 <= i < |domain| ==> domain[i].value != DONT_CARE
  }

  /** A literal is TRUE exactly when its two-valued variable matches the bit. */
  lemma LiteralValue(x: BooleanVariable, bit: BooleanValue)
    requires x.value != DONT_CARE && bit != DONT_CARE
    ensures Value(Literal(x, bit)) == Success(FromBool((x.value == TRUE) == (bit == TRUE)))
  {
    if bit == FALSE {
      NotValue(Variable(x));
    }
  }

  /** The literals of a product: TRUE exactly where the variable matches the row's binary digit. */
  lemma ProductSources(domain: seq<BooleanVariable>, m: Int32, i: nat)
    requires TwoValuedDomain(domain)
    requires 0 <= m && i < |domain|
    ensures Value(Product(domain, m).sources[i]) ==
      Success(FromBool(TruthBits(DomainValues(domain))[i] == Digits(|domain|, m)[i]))
  {
    var n := |domain|;
    var bits := BinaryValues(n, m);
    assert Product(domain, m).sources[i] == Literal(domain[i], bits[i]);
    assert bits[i] == FromBool(JavaBitSet(m, n - 1 - i));
    DigitsAt(n, m, i);
    JavaBitOfNonNegative(m, n - 1 - i);
    LiteralValue(domain[i], bits[i]);
  }

  /** A sequence of n bits spells m exactly when it packs to m. */
  lemma SpellsIndex(truth: seq<bool>, m: nat)
    requires m < Pow2(|truth|)
    ensures truth == Digits(|truth|, m) <==> Pack(truth) == m
  {
    PackDigits(|truth|, m);
    DigitsPack(truth);
  }

  /**
   * With two-valued variables, the product of a row in the table is TRUE exactly when the
   * variables spell that row, most significant first; an empty domain has no product.
   */
  lemma ProductValue(domain: seq<BooleanVariable>, m: Int32)
    requires TwoValuedDomain(domain)
    requires 0 <= m < Pow2(|domain|)
    ensures |domain| == 0 ==> Value(Product(domain, m)) == Failure(IndexOutOfBounds)
    ensures |domain| > 0 ==> Value(Product(domain, m)) == Success(FromBool(Pack(TruthBits(DomainValues(domain))) == m))
  {
    var s := Product(domain, m);
    if |domain| == 0 {
      AndValue(s.sources);
    } else {
      ProductSpells(domain, m);
      SpellsIndex(TruthBits(DomainValues(domain)), m);
    }
  }

  /** The product of row `m` is TRUE exactly when the variables' values are the digits of `m`. */
  lemma ProductSpells(domain: seq<BooleanVariable>, m: Int32)
    requires TwoValuedDomain(domain) && |domain| > 0
    requires 0 <= m
    ensures Value(Product(domain, m)) == Success(FromBool(TruthBits(DomainValues(domain)) == Digits(|domain|, m)))
  {
    var n := |domain|;
    var s := Product(domain, m);
    var truth := TruthBits(DomainValues(domain));
    var digits := Digits(n, m);
    forall i | 0 <= i < n ensures Value(s.sources[i]) == Success(FromBool(truth[i] == digits[i])) {
      ProductSources(domain, m, i);
    }
    AndValue(s.sources);
    if truth != digits {
      var i :| 0 <= i < n && truth[i] != digits[i];
      assert Value(s.sources[i]).value == FALSE;
    } else {
      assert forall i :: 0 <= i < n ==> Value(s.sources[i]).value == TRUE;
    }
  }

  /** The sum of products fails with no minterms, and with no variables (the first product fails). */
  lemma SumOfProductsFails(domain: seq<BooleanVariable>, minterms: seq<Int32>)
    requires |minterms| == 0 || |domain| == 0
    ensures Value(SumOfProducts(domain, minterms)) == Failure(IndexOutOfBounds)
  {
    var s := SumOfProducts(domain, minterms);
    if |minterms| > 0 {
      var first := Product(domain, minterms[0]);
      assert s.sources[0] == first;
      assert Value(first) == Failure(IndexOutOfBounds);
      assert ValuesUpTo(s, 0) == Success([]);
      assert ValuesUpTo(s, 1) == Failure(IndexOutOfBounds);
      FailureStaysUpTo(s, 1, |minterms|);
    }
  }

  /**
   * With two-valued variables and rows of the table as minterms, the sum of products is TRUE
   * exactly at the minterm rows.
   */
  lemma SumOfProductsValue(domain: seq<BooleanVariable>, minterms: seq<Int32>)
    requires TwoValuedDomain(domain) && |domain| > 0 && |minterms| > 0
    requires forall k :: 0 <= k < |minterms| ==> 0 <= minterms[k] < Pow2(|domain|)
    ensures Value(SumOfProducts(domain, minterms)) == Success(FromBool(Pack(TruthBits(DomainValues(domain))) in minterms))
  {
    var sources := SumOfProducts(domain, minterms).sources;
    var index := Pack(TruthBits(DomainValues(domain)));
    ProductsValues(domain, minterms, index);
    OrValue(sources);
    assert SumOfProducts(domain, minterms) == OrOf(sources);
    var v := Value(OrOf(sources));
    assert v.Success?;
    if index in minterms {
      var k :| 0 <= k < |minterms| && minterms[k] == index;
      assert Value(sources[k]).value == TRUE;
      assert v.value == TRUE;
    } else {
      assert forall k :: 0 <= k < |minterms| ==> Value(sources[k]).value == FALSE;
      assert v.value == FALSE;
    }
  }

  /** Each product of the sum is TRUE exactly at its own row. */
  lemma ProductsValues(domain: seq<BooleanVariable>, minterms: seq<Int32>, index: int)
    requires TwoValuedDomain(domain) && |domain| > 0
    requires forall k :: 0 <= k < |minterms| ==> 0 <= minterms[k] < Pow2(|domain|)
    requires index == Pack(TruthBits(DomainValues(domain)))
    ensures forall k :: 0 <= k < |minterms| ==>
      Value(SumOfProducts(domain, minterms).sources[k]) == Success(FromBool(index == minterms[k]))
  {
    var sources := SumOfProducts(domain, minterms).sources;
    forall k | 0 <= k < |minterms| ensures Value(sources[k]) == Success(FromBool(index == minterms[k])) {
      assert sources[k] == Product(domain, minterms[k]);
      ProductValue(domain, minterms[k]);
    }
  }

  /**
   * The value a row evidently should have: TRUE at a minterm, DONT_CARE at a don't-care, FALSE
   * otherwise, whichever kind of index the function was given.
   */
  function IntendedValue(minterms: seq<Int32>, dontCares: seq<Int32>, bin: int): BooleanValue {
    if bin in minterms then TRUE
    else if bin in dontCares then DONT_CARE
    else FALSE
  }

  // ---------------------------------------------------------------- the helper object

  /** Sorting the lists the constructor assigns by mode gives the helper's lists. */
  lemma SortedListsUnified(n: nat, indexesAreMinterms: bool, tableSize: Int32, indexes: seq<Int32>,
    dontCares: seq<Int32>, others: seq<Int32>)
    requires tableSize == JavaBitMask(n) && others == Others(tableSize, indexes, dontCares)
    ensures var mins := if indexesAreMinterms then indexes else others;
            var maxs := if indexesAreMinterms then others else indexes;
            Unified(n, indexesAreMinterms, tableSize, Sort(mins), Sort(maxs), Sort(dontCares), indexes, dontCares)
  {
  }

  /**
   * The lists the helper keeps for `n` variables: every list sorted, the given indexes on the
   * side of the mode and every other row of the table (not a don't-care) on the other side.
   */
  ghost predicate Unified(n: nat, indexesAreMinterms: bool, tableSize: Int32, minterms: seq<Int32>,
    maxterms: seq<Int32>, dontCares: seq<Int32>, givenIndexes: seq<Int32>, givenDontCares: seq<Int32>)
  {
    tableSize == JavaBitMask(n) &&
    Sorted(minterms) && Sorted(maxterms) && Sorted(dontCares) &&
    multiset(dontCares) == multiset(givenDontCares) &&
    var others := Others(tableSize, givenIndexes, givenDontCares);
    if indexesAreMinterms then
      multiset(minterms) == multiset(givenIndexes) && multiset(maxterms) == multiset(others)
    else
      multiset(minterms) == multiset(others) && multiset(maxterms) == multiset(givenIndexes)
  }

  class BFGrandUnifier {
    /** Private copies of the caller's variables, made at construction. */
    const domain: seq<BooleanVariable>
    const indexesAreMinterms: bool
    const tableSize: Int32
    const mintermIndexes: seq<Int32>
    const maxtermIndexes: seq<Int32>
    /** The caller's own don't-care list, kept by reference. */
    const dontCareIndexes: IntList
    /** The arguments the object was built from. */
    ghost const givenIndexes: seq<Int32>
    ghost const givenDontCares: seq<Int32>

    /** The state construction establishes, as long as nobody changes the shared don't-care list. */
    ghost predicate Valid()
      reads this, dontCareIndexes
    {
      Unified(|domain|, indexesAreMinterms, tableSize, mintermIndexes, maxtermIndexes, dontCareIndexes.items,
        givenIndexes, givenDontCares)
    }

    /**
     * The constructor: copies the domain, computes 2^n with `int` arithmetic, lists the rows not
     * among the indexes and don't-cares, assigns the minterm and maxterm lists by mode, and sorts
     * all three; the don't-care list is the caller's and is sorted in place.
     */
    constructor (domain: seq<BooleanVariable>, indexes: seq<Int32>, dontCares: IntList, indexesAreMinterms: bool)
      requires |domain| < TWO_31
      modifies dontCares
      ensures Valid()
      ensures fresh(this.domain) && SameVariables(this.domain, domain)
      ensures this.indexesAreMinterms == indexesAreMinterms
      ensures dontCareIndexes == dontCares && dontCares.items == Sort(old(dontCares.items))
      ensures givenIndexes == indexes && givenDontCares == old(dontCares.items)
      ensures |domain| <= 30 ==> tableSize == Pow2(|domain|)
      ensures |domain| == 31 ==> tableSize == -TWO_31
      ensures |domain| >= 32 ==> tableSize == 0
    {
      var size := BinaryVariationsCount(|domain| as Int32);
      var dcs := dontCares.items;
      var otherIndexes := OtherIndexes(size, indexes, dcs);
      var mins, maxs;
      if indexesAreMinterms {
        mins := CopyIntList(indexes);
        maxs := CopyIntList(otherIndexes);
      } else {
        mins := CopyIntList(otherIndexes);
        maxs := CopyIntList(indexes);
      }
      assert mins == if indexesAreMinterms then indexes else otherIndexes;
      assert maxs == if indexesAreMinterms then otherIndexes else indexes;
      var sortedMins, sortedMaxs := Sort(mins), Sort(maxs);
      SortedListsUnified(|domain|, indexesAreMinterms, size, indexes, dcs, otherIndexes);
      dontCares.SortInPlace();
      var copy := CopyBooleanVariableList(domain);
      assert |copy| == |domain|;
      this.domain := copy;
      this.indexesAreMinterms := indexesAreMinterms;
      this.tableSize := size;
      this.mintermIndexes := sortedMins;
      this.maxtermIndexes := sortedMaxs;
      this.dontCareIndexes := dontCares;
      this.givenIndexes := indexes;
      this.givenDontCares := dcs;
    }

    /** The rows of the table that are neither among the indexes nor don't-cares, in row order. */
    static method OtherIndexes(size: Int32, indexes: seq<Int32>, dontCares: seq<Int32>) returns (others: seq<Int32>)
      ensures others == Others(size, indexes, dontCares)
    {
      others := Range(0, size, 1);
      RangeOfOne(others, size);
      assert others == TableRange(size);
      others := RemoveAll(others, indexes);
      others := RemoveAll(others, dontCares);
    }

    predicate HasMinterm(index: int)
      reads this
    {
      index in mintermIndexes
    }

    predicate HasMaxterm(index: int)
      reads this
    {
      index in maxtermIndexes
    }

    predicate HasDontCare(index: int)
      reads this, dontCareIndexes
    {
      index in dontCareIndexes.items
    }

    /**
     * With indexes and don't-cares inside the table and disjoint, every row of the table is
     * exactly one of minterm, maxterm, don't-care; the given indexes are the minterms in minterm
     * mode and the maxterms in maxterm mode.
     */
    lemma ExactlyOne(k: Int32)
      requires Valid()
      requires InTable(givenIndexes, tableSize) && InTable(givenDontCares, tableSize)
      requires Disjoint(givenIndexes, givenDontCares)
      ensures 0 <= k < tableSize ==> ExactlyOneOf(HasMinterm(k), HasMaxterm(k), HasDontCare(k))
      ensures !(0 <= k < tableSize) ==> !HasMinterm(k) && !HasMaxterm(k) && !HasDontCare(k)
      ensures (if indexesAreMinterms then HasMinterm(k) else HasMaxterm(k)) <==> k in givenIndexes
    {
      var others := Others(tableSize, givenIndexes, givenDontCares);
      Partition(tableSize, givenIndexes, givenDontCares, k);
      assert HasDontCare(k) <==> k in givenDontCares by {
        assert k in dontCareIndexes.items <==> k in multiset(dontCareIndexes.items);
        assert k in givenDontCares <==> k in multiset(givenDontCares);
      }
      assert HasMinterm(k) <==> (if indexesAreMinterms then k in givenIndexes else k in others) by {
        assert k in mintermIndexes <==> k in multiset(mintermIndexes);
        assert k in givenIndexes <==> k in multiset(givenIndexes);
        assert k in others <==> k in multiset(others);
      }
      assert HasMaxterm(k) <==> (if indexesAreMinterms then k in others else k in givenIndexes) by {
        assert k in maxtermIndexes <==> k in multiset(maxtermIndexes);
        assert k in givenIndexes <==> k in multiset(givenIndexes);
        assert k in others <==> k in multiset(others);
      }
    }

    /** Membership in a list is membership in its multiset. */
    static lemma SameMembers(a: seq<Int32>, b: seq<Int32>, k: int)
      requires multiset(a) == multiset(b)
      ensures k in a <==> k in b
    {
      assert k in a <==> k in multiset(a);
      assert k in b <==> k in multiset(b);
    }

    /**
     * As written, with no don't-cares, `getValue` answers TRUE exactly when the packed row is one
     * of the given indexes, and FALSE otherwise, in either mode: in maxterm mode it is TRUE at the
     * maxterms.
     */
    lemma NoDontCareMeaning(bin: int)
      requires Valid() && dontCareIndexes.items == []
      ensures NoDontCareValue(indexesAreMinterms, mintermIndexes, maxtermIndexes, [], bin) ==
        FromBool(bin in givenIndexes)
    {
      var others := Others(tableSize, givenIndexes, givenDontCares);
      SameMembers(mintermIndexes, if indexesAreMinterms then givenIndexes else others, bin);
      SameMembers(maxtermIndexes, if indexesAreMinterms then others else givenIndexes, bin);
    }

    /**
     * As written, with don't-cares, two-valued variables and rows inside the table, `getValue` is
     * TRUE exactly at the given minterms in minterm mode, and exactly at the maxterms and the
     * don't-cares in maxterm mode; it fails when there is no minterm.
     */
    lemma WithDontCareMeaning()
      requires Valid() && TwoValuedDomain(domain) && 0 < |domain| <= 30
      requires InTable(givenIndexes, tableSize) && InTable(givenDontCares, tableSize)
      ensures mintermIndexes == [] ==> WithDontCareValue(indexesAreMinterms, domain, mintermIndexes) == Failure(IndexOutOfBounds)
      ensures mintermIndexes != [] ==>
        var index := Pack(TruthBits(DomainValues(domain)));
        WithDontCareValue(indexesAreMinterms, domain, mintermIndexes) ==
          Success(FromBool(if indexesAreMinterms then index in givenIndexes
                           else index in givenIndexes || index in givenDontCares))
    {
      var n := |domain|;
      var index := Pack(TruthBits(DomainValues(domain)));
      var others := Others(tableSize, givenIndexes, givenDontCares);
      assert tableSize == Pow2(n);
      if mintermIndexes == [] {
        SumOfProductsFails(domain, mintermIndexes);
      } else {
        forall k | 0 <= k < |mintermIndexes| ensures 0 <= mintermIndexes[k] < Pow2(n) {
          var x := mintermIndexes[k];
          SameMembers(mintermIndexes, if indexesAreMinterms then givenIndexes else others, x);
          OthersMeaning(tableSize, givenIndexes, givenDontCares, x);
        }
        SumOfProductsValue(domain, mintermIndexes);
        SameMembers(mintermIndexes, if indexesAreMinterms then givenIndexes else others, index);
        PackBound(TruthBits(DomainValues(domain)));
        OthersMeaning(tableSize, givenIndexes, givenDontCares, index);
      }
    }

    /**
     * The intended reading of the three lists: with inputs inside the table and disjoint, the
     * intended value of a row is TRUE at the minterms, DONT_CARE at the don't-cares and FALSE at
     * the maxterms, in either mode.
     */
    lemma IntendedValueMeaning(k: Int32)
      requires Valid()
      requires InTable(givenIndexes, tableSize) && InTable(givenDontCares, tableSize)
      requires Disjoint(givenIndexes, givenDontCares)
      requires 0 <= k < tableSize
      ensures IntendedValue(mintermIndexes, dontCareIndexes.items, k) == TRUE <==> HasMinterm(k)
      ensures IntendedValue(mintermIndexes, dontCareIndexes.items, k) == DONT_CARE <==> HasDontCare(k)
      ensures IntendedValue(mintermIndexes, dontCareIndexes.items, k) == FALSE <==> HasMaxterm(k)
    {
      ExactlyOne(k);
    }

    /**
     * In maxterm mode with no don't-cares, `getValue` as written answers the complement of the
     * intended value at every row of the table: TRUE at each maxterm, FALSE at each minterm.
     */
    lemma MaxtermModeComplement(k: Int32)
      requires Valid() && !indexesAreMinterms && dontCareIndexes.items == []
      requires InTable(givenIndexes, tableSize) && InTable(givenDontCares, tableSize)
      requires 0 <= k < tableSize
      ensures NoDontCareValue(indexesAreMinterms, mintermIndexes, maxtermIndexes, [], k) ==
        Not(IntendedValue(mintermIndexes, dontCareIndexes.items, k))
    {
      assert givenDontCares == [] by {
        assert |multiset(givenDontCares)| == |multiset(dontCareIndexes.items)|;
      }
      ExactlyOne(k);
      NoDontCareMeaning(k);
    }

    /** `getValue`: by index when there are no don't-cares, by the sum-of-products formula otherwise. */
    method GetValue() returns (r: Result<BooleanValue>)
      ensures dontCareIndexes.items == [] ==> r.Success?
      ensures dontCareIndexes.items == [] && |domain| <= 31 ==>
        r == Success(NoDontCareValue(indexesAreMinterms, mintermIndexes, maxtermIndexes, [],
                                     Pack(TruthBits(DomainValues(domain)))))
      ensures dontCareIndexes.items != [] ==> r == WithDontCareValue(indexesAreMinterms, domain, mintermIndexes)
    {
      if dontCareIndexes.items == [] {
        var v := GetValueNoDontCares();
        r := Success(v);
      } else {
        r := GetValueWithDontCares();
      }
    }

    /** `getValueNoDontCares`: packs the TRUE variables into an index, most significant first. */
    method GetValueNoDontCares() returns (v: BooleanValue)
      ensures |domain| <= 31 ==>
        v == NoDontCareValue(indexesAreMinterms, mintermIndexes, maxtermIndexes, dontCareIndexes.items,
                             Pack(TruthBits(DomainValues(domain))))
    {
      var numOfVariables := |domain|;
      ghost var bits := TruthBits(DomainValues(domain));
      var bin: Int32 := 0;
      var weight: Int32 := FirstWeight(numOfVariables);
      if numOfVariables <= 31 {
        PackingStart(bits);
      }
      var i := 0;
      while i < numOfVariables
        invariant 0 <= i <= numOfVariables
        invariant numOfVariables <= 31 ==> Packing(bits, i, bin, weight)
      {
        assert bits[i] == (domain[i].value == TRUE);
        if numOfVariables <= 31 {
          PackingStep(bits, i, bin, weight);
        }
        if domain[i].value == TRUE {
          bin := Wrap(bin + weight);
        }
        weight := weight / 2;
        i := i + 1;
      }
      if numOfVariables <= 31 {
        PackingDone(bits, bin, weight);
      }
      if (indexesAreMinterms && HasMinterm(bin)) || (!indexesAreMinterms && HasMaxterm(bin)) {
        v := TRUE;
      } else if HasDontCare(bin) {
        v := DONT_CARE;
      } else {
        v := FALSE;
      }
    }

    /** `getValueWithDontCares`: builds one product per minterm, ORs them and evaluates. */
    method GetValueWithDontCares() returns (r: Result<BooleanValue>)
      ensures r == WithDontCareValue(indexesAreMinterms, domain, mintermIndexes)
    {
      var numOfIndexes := |mintermIndexes|;
      var numOfVariables := |domain|;
      var products := new Source[numOfIndexes](_ => TRUE_CONSTANT);
      for indexPos := 0 to numOfIndexes
        invariant forall k :: 0 <= k < indexPos ==> products[k] == Product(domain, mintermIndexes[k])
      {
        var binary := IndexAsBinary(numOfVariables, mintermIndexes[indexPos]);
        var binIndex := binary.value;
        var vars: seq<Source> := [];
        for i := 0 to numOfVariables
          invariant |vars| == i
          invariant forall j :: 0 <= j < i ==> vars[j] == Literal(domain[j], binIndex[j])
        {
          if binIndex[i] == FALSE {
            var negated := NotOf([Variable(domain[i])]);
            vars := vars + [negated.value];
          } else {
            vars := vars + [Variable(domain[i])];
          }
        }
        products[indexPos] := AndOf(vars);
      }
      var sumOfProducts := OrOf(products[..]);
      assert sumOfProducts == SumOfProducts(domain, mintermIndexes);
      var computedResult := BooleanSources.GetValue(sumOfProducts);
      if computedResult.Failure? {
        return Failure(computedResult.error);
      }
      r := Success(if indexesAreMinterms then computedResult.value else Not(computedResult.value));
    }
  }

  /**
   * The state of the packing loop after `i` of the bits: `bin` holds the bits read so far at their
   * final weights, and `weight` is the weight of the next bit (none once all are read).
   */
  ghost predicate Packing(bits: seq<bool>, i: nat, bin: int, weight: int) {
    i <= |bits| <= 31 &&
    weight == (if i < |bits| then Pow2(|bits| - 1 - i) else 0) &&
    bin == Pack(bits[..i]) * Pow2(|bits| - i)
  }

  lemma PackingStart(bits: seq<bool>)
    requires |bits| <= 31
    ensures Packing(bits, 0, 0, FirstWeight(|bits|))
  {
    assert bits[..0] == [];
  }

  /** Adding the weight of a TRUE bit and halving the weight keeps the loop's state. */
  lemma PackingStep(bits: seq<bool>, i: nat, bin: int, weight: int)
    requires Packing(bits, i, bin, weight) && i < |bits|
    ensures Packing(bits, i + 1, if bits[i] then Wrap(bin + weight) else bin, weight / 2)
  {
    HalveWeight(|bits| - 1 - i);
    BinStep(bits, i, bin, weight);
  }

  /** `Packing` after all bits, read as the number they spell. */
  lemma PackingDone(bits: seq<bool>, bin: int, weight: int)
    requires Packing(bits, |bits|, bin, weight)
    ensures bin == Pack(bits)
  {
    assert bits[..|bits|] == bits;
  }

  lemma HalveWeight(k: nat)
    ensures Pow2(k) / 2 == if k == 0 then 0 else Pow2(k - 1)
  {
  }

  /** Adding the weight of a TRUE bit keeps `bin` exact, with no wrap-around. */
  lemma BinStep(bits: seq<bool>, i: nat, bin: int, weight: int)
    requires i < |bits| <= 31
    requires weight == Pow2(|bits| - 1 - i)
    requires bin == Pack(bits[..i]) * Pow2(|bits| - i)
    ensures (if bits[i] then Wrap(bin + weight) else bin) == Pack(bits[..i + 1]) * Pow2(|bits| - 1 - i)
  {
    var n := |bits|;
    var p1 := Pack(bits[..i + 1]);
    var w := Pow2(n - 1 - i);
    BinFacts(bits, i);
    StepArithmetic(Pack(bits[..i]), if bits[i] then 1 else 0, w, Pow2(n - i), p1, Pow2(i + 1), Pow2(n), bin);
    WrapInRange(p1 * w);
  }

  /** The facts about packing and powers of two that one step of the packing loop rests on. */
  lemma BinFacts(bits: seq<bool>, i: nat)
    requires i < |bits| <= 31
    ensures Pack(bits[..i + 1]) == 2 * Pack(bits[..i]) + (if bits[i] then 1 else 0)
    ensures Pack(bits[..i + 1]) < Pow2(i + 1)
    ensures Pow2(|bits| - i) == 2 * Pow2(|bits| - 1 - i) && Pow2(|bits| - 1 - i) >= 1
    ensures Pow2(i + 1) * Pow2(|bits| - 1 - i) == Pow2(|bits|) <= TWO_31
  {
    var n := |bits|;
    assert bits[..i + 1] == bits[..i] + [bits[i]];
    PackAppend(bits[..i], bits[i]);
    PackBound(bits[..i + 1]);
    Pow2Add(i + 1, n - 1 - i);
    Pow2Values();
    Pow2Monotone(n, 31);
  }

  lemma StepArithmetic(p: nat, b: nat, w: nat, t: nat, p1: nat, q: nat, total: nat, bin: int)
    requires p1 == 2 * p + b && b <= 1 && w >= 1 && t == 2 * w
    requires bin == p * t
    requires p1 < q && q * w == total && total <= TWO_31
    ensures b == 0 ==> bin == p1 * w
    ensures b == 1 ==> bin + w == p1 * w
    ensures 0 <= p1 * w < TWO_31
  {
    Distribute(p, b, w);
    MulStrict(p1, q, w);
  }

  lemma Distribute(p: int, b: int, w: int)
    ensures (2 * p + b) * w == p * (2 * w) + b * w
  {
  }

  lemma {:induction false} Pow2Add(a: nat, b: nat)
    ensures Pow2(a) * Pow2(b) == Pow2(a + b)
  {
    if a > 0 {
      Pow2Add(a - 1, b);
    }
  }

  lemma MulStrict(x: nat, y: nat, w: nat)
    requires x < y && w >= 1
    ensures x * w < y * w
  {
  }
}
