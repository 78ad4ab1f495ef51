/**
 * `MaskBasedBF`: a Boolean function given by minterm (or maxterm) masks and don't-care masks,
 * each mask standing for all the rows its don't-care positions can expand to.
 */
module MaskBased {
  import opened Wrappers
  import opened MaskValues
  import Values
  import opened Bits
  import opened Variables
  import opened TernaryMask
  import opened SwissKnife
  import opened GrandUnifier

  // ---------------------------------------------------------------- possibleMasks

  /** Number of DONT_CARE positions. */
  function DontCares(l: seq<MaskValue>): nat {
    if l == [] then 0 else (if l[0] == DONT_CARE then 1 else 0) + DontCares(l[1..])
  }

  /** The position of the first DONT_CARE. */
  function FirstDontCare(l: seq<MaskValue>): (i: nat)
    requires DONT_CARE in l
    ensures i < |l| && l[i] == DONT_CARE
    ensures forall j :: 0 <= j < i ==> l[j] != DONT_CARE
  {
    if l[0] == DONT_CARE then 0 else 1 + FirstDontCare(l[1..])
  }

  /** `l` with position `i` replaced by `v`. */
  function Fix(l: seq<MaskValue>, i: nat, v: MaskValue): (r: seq<MaskValue>)
    requires i < |l|
    ensures |r| == |l| && r[i] == v
  {
    l[..i] + [v] + l[i + 1..]
  }

  /** How far the first DONT_CARE is from the end (0 without one): fixing it moves the first one right. */
  function Remaining(l: seq<MaskValue>): nat {
    if DONT_CARE in l then |l| - FirstDontCare(l) else 0
  }

  lemma FixMovesRight(l: seq<MaskValue>, v: MaskValue)
    requires DONT_CARE in l && v != DONT_CARE
    ensures Remaining(Fix(l, FirstDontCare(l), v)) < Remaining(l)
  {
    var i := FirstDontCare(l);
    var r := Fix(l, i, v);
    assert forall j :: 0 <= j <= i ==> r[j] != DONT_CARE by {
      forall j | 0 <= j <= i ensures r[j] != DONT_CARE {
        if j < i {
          assert r[j] == l[j];
        }
      }
    }
  }

  /** Every list of `ss`, with `v` put in front. */
  function Prefixed(v: MaskValue, ss: seq<seq<MaskValue>>): (r: seq<seq<MaskValue>>)
    ensures |r| == |ss|
  {
    seq(|ss|, k requires 0 <= k < |ss| => [v] + ss[k])
  }

  /**
   * The fully defined lists a list of mask values stands for, in the order `possibleMasks` lists
   * them: a DONT_CARE is set to ONE in the first half and to ZERO in the second.
   */
  function Expansions(l: seq<MaskValue>): (r: seq<seq<MaskValue>>)
    ensures forall k :: 0 <= k < |r| ==> |r[k]| == |l|
  {
    if l == [] then [[]]
    else
      var rest := Expansions(l[1..]);
      if l[0] == DONT_CARE then Prefixed(ONE, rest) + Prefixed(ZERO, rest)
      else Prefixed(l[0], rest)
  }

  /** A fully defined list expands to itself alone. */
  lemma {:induction false} ExpansionsDefined(l: seq<MaskValue>)
    requires DONT_CARE !in l
    ensures Expansions(l) == [l]
  {
    if l != [] {
      ExpansionsDefined(l[1..]);
      assert [l[0]] + l[1..] == l;
    }
  }

  lemma PrefixedAppend(v: MaskValue, a: seq<seq<MaskValue>>, b: seq<seq<MaskValue>>)
    ensures Prefixed(v, a + b) == Prefixed(v, a) + Prefixed(v, b)
  {
  }

  /** Fixing a position past a defined head leaves the head in front of every expansion. */
  lemma ExpansionsOfFixTail(l: seq<MaskValue>, i: nat, v: MaskValue)
    requires 0 < i < |l| && l[0] != DONT_CARE
    ensures Expansions(Fix(l, i, v)) == Prefixed(l[0], Expansions(Fix(l[1..], i - 1, v)))
  {
    assert Fix(l, i, v)[1..] == Fix(l[1..], i - 1, v);
  }

  /**
   * The order `possibleMasks` recurses in: the expansions with the first DONT_CARE set to ONE,
   * then those with it set to ZERO.
   */
  lemma {:induction false} ExpansionsAtFirst(l: seq<MaskValue>)
    requires DONT_CARE in l
    ensures Expansions(l) == Expansions(Fix(l, FirstDontCare(l), ONE)) + Expansions(Fix(l, FirstDontCare(l), ZERO))
  {
    var i := FirstDontCare(l);
    var t := l[1..];
    if i == 0 {
      assert Fix(l, 0, ONE)[1..] == t;
      assert Fix(l, 0, ZERO)[1..] == t;
    } else {
      assert DONT_CARE in t;
      assert FirstDontCare(t) == i - 1;
      ExpansionsAtFirst(t);
      ExpansionsOfFixTail(l, i, ONE);
      ExpansionsOfFixTail(l, i, ZERO);
      PrefixedAppend(l[0], Expansions(Fix(t, i - 1, ONE)), Expansions(Fix(t, i - 1, ZERO)));
    }
  }

  /** `possibleMasks`: copies the defined prefix, and recurses on both settings of the first DONT_CARE. */
  method PossibleMasks(maskList: seq<MaskValue>) returns (possible: seq<seq<MaskValue>>)
    ensures possible == Expansions(maskList)
    decreases Remaining(maskList)
  {
    if DONT_CARE !in maskList {
      ExpansionsDefined(maskList);
      return [maskList];
    }
    possible := [];
    var newMaskValues: seq<MaskValue> := [];
    var maskLen := |maskList|;
    for i := 0 to maskLen
      invariant newMaskValues == maskList[..i]
      invariant forall j :: 0 <= j < i ==> maskList[j] != DONT_CARE
    {
      if maskList[i] == DONT_CARE {
        assert i == FirstDontCare(maskList);
        ExpansionsAtFirst(maskList);
        var additionalMaskList := newMaskValues + [ONE] + maskList[i + 1..];
        assert additionalMaskList == Fix(maskList, i, ONE);
        FixMovesRight(maskList, ONE);
        var ones := PossibleMasks(additionalMaskList);
        assert possible + ones == ones;
        possible := possible + ones;
        additionalMaskList := newMaskValues + [ZERO] + maskList[i + 1..];
        assert additionalMaskList == Fix(maskList, i, ZERO);
        FixMovesRight(maskList, ZERO);
        var zeros := PossibleMasks(additionalMaskList);
        possible := possible + zeros;
        return;
      } else {
        newMaskValues := newMaskValues + [maskList[i]];
      }
    }
    assert false;
  }

  /** A list with k DONT_CAREs has 2^k expansions. */
  lemma {:induction false} ExpansionsCount(l: seq<MaskValue>)
    ensures |Expansions(l)| == Pow2(DontCares(l))
  {
    if l != [] {
      ExpansionsCount(l[1..]);
    }
  }

  /** `e` is a fully defined list agreeing with `l` wherever `l` is defined. */
  predicate Refines(e: seq<MaskValue>, l: seq<MaskValue>) {
    |e| == |l| && DONT_CARE !in e &&
    forall p :: 0 <= p < |l| && l[p] != DONT_CARE ==> e[p] == l[p]
  }

  /** Every expansion is fully defined and agrees with the list at its defined positions. */
  lemma {:induction false} ExpansionsRefine(l: seq<MaskValue>, k: nat)
    requires k < |Expansions(l)|
    ensures Refines(Expansions(l)[k], l)
  {
    if l != [] {
      var rest := Expansions(l[1..]);
      var e := Expansions(l)[k];
      var k' := if k < |rest| then k else k - |rest|;
      ExpansionsRefine(l[1..], k');
      assert e == [e[0]] + rest[k'];
      assert e[0] != DONT_CARE;
    }
  }

  /** Every fully defined list agreeing with `l` at its defined positions is one of its expansions. */
  lemma {:induction false} ExpansionsComplete(l: seq<MaskValue>, e: seq<MaskValue>)
    requires Refines(e, l)
    ensures e in Expansions(l)
  {
    if l != [] {
      var rest := Expansions(l[1..]);
      ExpansionsComplete(l[1..], e[1..]);
      var k :| 0 <= k < |rest| && rest[k] == e[1..];
      assert e == [e[0]] + rest[k];
      if l[0] == DONT_CARE && e[0] == ZERO {
        assert Expansions(l)[|rest| + k] == e;
      } else {
        assert Expansions(l)[k] == e;
      }
    }
  }

  /** Expansions with ONE at the first DONT_CARE all come before those with ZERO there. */
  lemma {:induction false} OnesBeforeZeros(l: seq<MaskValue>, a: nat, b: nat)
    requires DONT_CARE in l && a < |Expansions(l)| && b < |Expansions(l)|
    requires Expansions(l)[a][FirstDontCare(l)] == ONE && Expansions(l)[b][FirstDontCare(l)] == ZERO
    ensures a < b
  {
    var rest := Expansions(l[1..]);
    if l[0] != DONT_CARE {
      assert Expansions(l)[a] == [l[0]] + rest[a];
      assert Expansions(l)[b] == [l[0]] + rest[b];
      OnesBeforeZeros(l[1..], a, b);
    } else {
      assert a < |rest| <= b;
    }
  }

  // ---------------------------------------------------------------- listMaskToIndex

  /** The ONE positions of a list, as bits. */
  function OneBits(l: seq<MaskValue>): (r: seq<bool>)
    ensures |r| == |l|
  {
    seq(|l|, p requires 0 <= p < |l| => l[p] == ONE)
  }

  /** The row a list of mask values names over `n` variables: its first `n` positions, most significant first. */
  function MaskIndex(l: seq<MaskValue>, n: nat): (r: Int32)
    requires n <= |l| && n <= 31
    ensures 0 <= r < Pow2(n)
  {
    PackBound(OneBits(l[..n]));
    Pow2Values();
    Pow2Monotone(n, 31);
    Pack(OneBits(l[..n]))
  }

  /**
   * `listMaskToIndex`: adds the weights 2^(n-1), ..., 1 of the ONE positions, `n` being the size of
   * the domain; a list shorter than the domain ends with IndexOutOfBoundsException.
   */
  method ListMaskToIndex(listMask: seq<MaskValue>, numOfVariables: nat) returns (r: Result<Int32>)
    ensures r.Failure? <==> |listMask| < numOfVariables
    ensures r.Failure? ==> r.error == IndexOutOfBounds
    ensures r.Success? && numOfVariables <= 31 ==> r.value == MaskIndex(listMask, numOfVariables)
  {
    ghost var bits := if |listMask| < numOfVariables then [] else OneBits(listMask[..numOfVariables]);
    var bin: Int32 := 0;
    var weight: Int32 := FirstWeight(numOfVariables);
    if |listMask| >= numOfVariables && numOfVariables <= 31 {
      PackingStart(bits);
    }
    var i := 0;
    while i < numOfVariables
      invariant 0 <= i <= numOfVariables
      invariant i <= |listMask|
      invariant |listMask| >= numOfVariables && numOfVariables <= 31 ==> Packing(bits, i, bin, weight)
    {
      if i >= |listMask| {
        return Failure(IndexOutOfBounds);
      }
      if |listMask| >= numOfVariables && numOfVariables <= 31 {
        assert bits[i] == (listMask[i] == ONE);
        PackingStep(bits, i, bin, weight);
      }
      if listMask[i] == ONE {
        bin := Wrap(bin + weight);
      }
      weight := weight / 2;
      i := i + 1;
    }
    if |listMask| >= numOfVariables && numOfVariables <= 31 {
      PackingDone(bits, bin, weight);
    }
    r := Success(bin);
  }

  /** Round trip: the mask `fromIndex(n, i)` names row i again, for every row 0 <= i < 2^n. */
  lemma IndexRoundTrip(n: nat, i: Int32)
    requires n <= 31 && 0 <= i < Pow2(n)
    ensures MaskIndex(IndexMask(n, i).values, n) == i
  {
    var values := IndexMask(n, i).values;
    assert values[..n] == values;
    forall p | 0 <= p < n ensures OneBits(values)[p] == Digits(n, i)[p] {
      IndexMaskDigits(n, i, p);
    }
    assert OneBits(values) == Digits(n, i);
    PackDigits(n, i);
  }

  /** `maskAsList`: the mask's values, position by position. */
  method MaskAsList(m: Mask) returns (mList: seq<MaskValue>)
    ensures mList == m.values
  {
    mList := [];
    for i := 0 to |m.values|
      invariant mList == m.values[..i]
    {
      var v := GetValue(m, i);
      mList := mList + [v.value];
    }
  }

  // ---------------------------------------------------------------- indexesFromMasks

  /** The rows one mask stands for, in expansion order. */
  function RowsOf(m: Mask, n: nat): (r: seq<Int32>)
    requires n <= |m.values| && n <= 31
    ensures |r| == |Expansions(m.values)|
  {
    var es := Expansions(m.values);
    seq(|es|, k requires 0 <= k < |es| => MaskIndex(es[k], n))
  }

  /** Every mask covers all the variables. */
  predicate LongEnough(masks: seq<Mask>, n: nat) {
    forall k :: 0 <= k < |masks| ==> n <= |masks[k].values|
  }

  /** The rows of all the masks, mask after mask. */
  function AllRows(masks: seq<Mask>, n: nat): seq<Int32>
    requires LongEnough(masks, n) && n <= 31
  {
    if masks == [] then [] else AllRows(masks[..|masks| - 1], n) + RowsOf(masks[|masks| - 1], n)
  }

  /** A mask without don't-cares stands for its own row only. */
  lemma DefinedMaskRows(m: Mask, n: nat)
    requires n <= |m.values| && n <= 31 && DONT_CARE !in m.values
    ensures RowsOf(m, n) == [MaskIndex(m.values, n)]
  {
    ExpansionsDefined(m.values);
  }

  /** One more mask adds its rows at the end. */
  lemma AllRowsStep(masks: seq<Mask>, k: nat, n: nat)
    requires k < |masks| && LongEnough(masks[..k], n) && n <= |masks[k].values|
    ensures LongEnough(masks[..k + 1], n)
    ensures n <= 31 ==> AllRows(masks[..k + 1], n) == AllRows(masks[..k], n) + RowsOf(masks[k], n)
  {
    assert masks[..k + 1][..k] == masks[..k];
  }

  /** The rows of a mask's first `e + 1` expansions. */
  lemma RowsOfPrefix(m: Mask, n: nat, e: nat)
    requires n <= |m.values| && n <= 31 && e < |Expansions(m.values)|
    ensures RowsOf(m, n)[..e + 1] == RowsOf(m, n)[..e] + [MaskIndex(Expansions(m.values)[e], n)]
  {
  }

  /** The inner loop of `indexesFromMasks`: the rows of one mask, expansion by expansion. */
  method MaskRows(m: Mask, numOfVariables: nat) returns (r: Result<seq<Int32>>)
    ensures r.Failure? <==> |m.values| < numOfVariables
    ensures r.Failure? ==> r.error == IndexOutOfBounds
    ensures r.Success? && numOfVariables <= 31 ==> r.value == RowsOf(m, numOfVariables)
  {
    var asList := MaskAsList(m);
    var expansions := PossibleMasks(asList);
    ExpansionsCount(asList);
    ghost var long := numOfVariables <= |m.values|;
    var indexes: seq<Int32> := [];
    for e := 0 to |expansions|
      invariant e > 0 ==> long
      invariant long && numOfVariables <= 31 ==> indexes == RowsOf(m, numOfVariables)[..e]
    {
      var index := ListMaskToIndex(expansions[e], numOfVariables);
      if index.Failure? {
        return Failure(index.error);
      }
      if long && numOfVariables <= 31 {
        RowsOfPrefix(m, numOfVariables, e);
      }
      indexes := indexes + [index.value];
    }
    if long && numOfVariables <= 31 {
      assert RowsOf(m, numOfVariables)[..|expansions|] == RowsOf(m, numOfVariables);
    }
    r := Success(indexes);
  }

  /** `indexesFromMasks`: the rows of every expansion of every mask, in order. */
  method IndexesFromMasks(masks: seq<Mask>, numOfVariables: nat) returns (r: Result<seq<Int32>>)
    ensures r.Failure? <==> !LongEnough(masks, numOfVariables)
    ensures r.Failure? ==> r.error == IndexOutOfBounds
    ensures r.Success? && numOfVariables <= 31 ==> r.value == AllRows(masks, numOfVariables)
  {
    var indexes: seq<Int32> := [];
    for k := 0 to |masks|
      invariant LongEnough(masks[..k], numOfVariables)
      invariant numOfVariables <= 31 ==> indexes == AllRows(masks[..k], numOfVariables)
    {
      var rows := MaskRows(masks[k], numOfVariables);
      if rows.Failure? {
        return Failure(rows.error);
      }
      AllRowsStep(masks, k, numOfVariables);
      indexes := indexes + rows.value;
    }
    assert masks[..|masks|] == masks;
    r := Success(indexes);
  }

  /** Membership in the rows of a mask: some expansion of the mask names the row. */
  lemma RowsOfMeaning(m: Mask, n: nat, k: int)
    requires n <= |m.values| && n <= 31
    ensures k in RowsOf(m, n) <==> exists e :: Refines(e, m.values) && MaskIndex(e, n) == k
  {
    var es := Expansions(m.values);
    if k in RowsOf(m, n) {
      var j :| 0 <= j < |es| && RowsOf(m, n)[j] == k;
      ExpansionsRefine(m.values, j);
      assert Refines(es[j], m.values) && MaskIndex(es[j], n) == k;
    }
    if e :| Refines(e, m.values) && MaskIndex(e, n) == k {
      ExpansionsComplete(m.values, e);
      var j :| 0 <= j < |es| && es[j] == e;
      assert RowsOf(m, n)[j] == k;
    }
  }

  /** A row is among the rows of a list of masks exactly when one of the masks covers it. */
  lemma {:induction false} AllRowsMeaning(masks: seq<Mask>, n: nat, k: int)
    requires LongEnough(masks, n) && n <= 31
    ensures k in AllRows(masks, n) <==> exists i :: 0 <= i < |masks| && k in RowsOf(masks[i], n)
  {
    if masks != [] {
      var init := masks[..|masks| - 1];
      assert LongEnough(init, n);
      AllRowsMeaning(init, n, k);
      if i :| 0 <= i < |init| && k in RowsOf(init[i], n) {
        assert masks[i] == init[i];
      }
      if i :| 0 <= i < |masks| - 1 && k in RowsOf(masks[i], n) {
        assert init[i] == masks[i];
      }
    }
  }

  // ---------------------------------------------------------------- the function object

  /**
   * A `MaskBasedBF`: its name, private clones of the domain variables, the mode flag and copies of
   * both mask lists; questions about the function go to a `BFGrandUnifier` built from the rows of
   * the masks.
   */
  class MaskBasedBF {
    const name: string
    const domain: seq<BooleanVariable>
    const masksAreMinterms: bool
    const masks: seq<Mask>
    const dontCareMasks: seq<Mask>
    const traversalHelper: BFGrandUnifier

    /**
     * The helper was built from the rows of the masks, over as many variables as the domain has,
     * in the same mode.
     */
    ghost predicate Valid()
      reads this, traversalHelper, traversalHelper.dontCareIndexes
    {
      var n := |domain|;
      traversalHelper.Valid() &&
      traversalHelper.indexesAreMinterms == masksAreMinterms &&
      |traversalHelper.domain| == n &&
      LongEnough(masks, n) && LongEnough(dontCareMasks, n) &&
      (n <= 31 ==>
        traversalHelper.givenIndexes == AllRows(masks, n) &&
        traversalHelper.givenDontCares == AllRows(dontCareMasks, n))
    }

    /**
     * The part of the constructor after the rows are known: the don't-care rows go into a list of
     * their own and the helper is built from the caller's domain.
     */
    constructor (name: string, domain: seq<BooleanVariable>, domainCopy: seq<BooleanVariable>, masksAreMinterms: bool,
                 masks: seq<Mask>, dontCareMasks: seq<Mask>, indexes: seq<Int32>, dontCareIndexes: seq<Int32>)
      requires |domain| < TWO_31 && |domainCopy| == |domain|
      requires LongEnough(masks, |domain|) && LongEnough(dontCareMasks, |domain|)
      requires |domain| <= 31 ==> indexes == AllRows(masks, |domain|) && dontCareIndexes == AllRows(dontCareMasks, |domain|)
      ensures this.name == name && this.domain == domainCopy && this.masksAreMinterms == masksAreMinterms
      ensures this.masks == masks && this.dontCareMasks == dontCareMasks
      ensures fresh(traversalHelper) && Valid()
    {
      var dontCareList := new IntList(dontCareIndexes);
      var helper := new BFGrandUnifier(domain, indexes, dontCareList, masksAreMinterms);
      this.name := name;
      this.domain := domainCopy;
      this.masksAreMinterms := masksAreMinterms;
      this.masks := masks;
      this.dontCareMasks := dontCareMasks;
      this.traversalHelper := helper;
    }

    /**
     * The public constructor: clones the domain, copies the mask lists, turns both into rows and
     * builds the helper from the caller's domain. A mask shorter than the domain ends it with
     * IndexOutOfBoundsException.
     */
    static method Create(name: string, domain: seq<BooleanVariable>, masksAreMinterms: bool,
                         masks: seq<Mask>, dontCareMasks: seq<Mask>) returns (r: Result<MaskBasedBF>)
      requires |domain| < TWO_31
      ensures r.Failure? <==> !LongEnough(masks, |domain|) || !LongEnough(dontCareMasks, |domain|)
      ensures r.Failure? ==> r.error == IndexOutOfBounds
      ensures r.Success? ==> fresh(r.value) && fresh(r.value.traversalHelper) && r.value.Valid()
      ensures r.Success? ==> fresh(r.value.domain) && SameVariables(r.value.domain, domain)
      ensures r.Success? ==> r.value.name == name && r.value.masksAreMinterms == masksAreMinterms
      ensures r.Success? ==> r.value.masks == masks && r.value.dontCareMasks == dontCareMasks
    {
      var domainCopy := CopyBooleanVariableList(domain);
      var masksCopy := CopyMaskList(masks);
      var dontCareCopy := CopyMaskList(dontCareMasks);
      var indexes := IndexesFromMasks(masksCopy, |domainCopy|);
      if indexes.Failure? {
        return Failure(indexes.error);
      }
      var dontCareIndexes := IndexesFromMasks(dontCareCopy, |domainCopy|);
      if dontCareIndexes.Failure? {
        return Failure(dontCareIndexes.error);
      }
      var f := new MaskBasedBF(name, domain, domainCopy, masksAreMinterms, masksCopy, dontCareCopy,
                               indexes.value, dontCareIndexes.value);
      r := Success(f);
    }

    predicate HasMinterm(index: int)
      reads this, traversalHelper
    {
      traversalHelper.HasMinterm(index)
    }

    predicate HasMaxterm(index: int)
      reads this, traversalHelper
    {
      traversalHelper.HasMaxterm(index)
    }

    predicate HasDontCare(index: int)
      reads this, traversalHelper, traversalHelper.dontCareIndexes
    {
      traversalHelper.HasDontCare(index)
    }

    /**
     * The rows the masks cover are the function's minterms in minterm mode and its maxterms in
     * maxterm mode; the rows the don't-care masks cover are its don't-cares.
     */
    lemma CoveredRows(k: int)
      requires Valid() && |domain| <= 31
      ensures (if masksAreMinterms then HasMinterm(k) else HasMaxterm(k)) <==>
        exists i :: 0 <= i < |masks| && k in RowsOf(masks[i], |domain|)
      ensures HasDontCare(k) <==> exists i :: 0 <= i < |dontCareMasks| && k in RowsOf(dontCareMasks[i], |domain|)
    {
      var h := traversalHelper;
      if masksAreMinterms {
        BFGrandUnifier.SameMembers(h.mintermIndexes, h.givenIndexes, k);
      } else {
        BFGrandUnifier.SameMembers(h.maxtermIndexes, h.givenIndexes, k);
      }
      BFGrandUnifier.SameMembers(h.dontCareIndexes.items, h.givenDontCares, k);
      AllRowsMeaning(masks, |domain|, k);
      AllRowsMeaning(dontCareMasks, |domain|, k);
    }

    /**
     * A row is a minterm (in minterm mode) or a maxterm (in maxterm mode) exactly when some mask
     * agrees with it at every defined position among the first |domain| ones.
     */
    lemma CoveredByMask(k: int)
      requires Valid() && |domain| <= 31
      ensures (if masksAreMinterms then HasMinterm(k) else HasMaxterm(k)) <==>
        exists i, e :: 0 <= i < |masks| && Refines(e, masks[i].values) && MaskIndex(e, |domain|) == k
    {
      CoveredRows(k);
      forall i | 0 <= i < |masks| {
        RowsOfMeaning(masks[i], |domain|, k);
      }
    }

    /** `getValue` is the helper's. */
    method GetValue() returns (v: Result<Values.BooleanValue>)
      ensures traversalHelper.dontCareIndexes.items == [] ==> v.Success?
      ensures traversalHelper.dontCareIndexes.items == [] && |traversalHelper.domain| <= 31 ==>
        v == Success(NoDontCareValue(traversalHelper.indexesAreMinterms, traversalHelper.mintermIndexes,
          traversalHelper.maxtermIndexes, [], Pack(TruthBits(DomainValues(traversalHelper.domain)))))
      ensures traversalHelper.dontCareIndexes.items != [] ==>
        v == WithDontCareValue(traversalHelper.indexesAreMinterms, traversalHelper.domain,
          traversalHelper.mintermIndexes)
    {
      v := traversalHelper.GetValue();
    }
  }
}
