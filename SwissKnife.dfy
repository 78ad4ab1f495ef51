/** `BooleanSwissKnife`: list and index helpers shared by the Boolean-function classes. */
module SwissKnife {
  import opened Wrappers
  import opened Values
  import opened MaskValues
  import opened Bits
  import opened Kleene
  import opened Variables
  import opened TernaryMask

  // ---------------------------------------------------------------- filters

  /** The elements of `s` that `accepts`, in their order. */
  function Filter<T(==)>(accepts: T -> bool, s: seq<T>): (r: seq<T>)
    ensures |r| <= |s|
    ensures forall i :: 0 <= i < |r| ==> r[i] in s && accepts(r[i])
    ensures forall i :: 0 <= i < |s| && accepts(s[i]) ==> s[i] in r
  {
    if s == [] then []
    else
      var init := s[..|s| - 1];
      assert s == init + [s[|s| - 1]];
      Filter(accepts, init) + (if accepts(s[|s| - 1]) then [s[|s| - 1]] else [])
  }

  /** Filtering twice with the same filter changes nothing. */
  lemma {:induction false} FilterIdempotent<T>(accepts: T -> bool, s: seq<T>)
    ensures Filter(accepts, Filter(accepts, s)) == Filter(accepts, s)
  {
    if s != [] {
      var init := s[..|s| - 1];
      var last := s[|s| - 1];
      FilterIdempotent(accepts, init);
      FilterAppend(accepts, Filter(accepts, init), if accepts(last) then [last] else []);
      if accepts(last) {
        assert [last][..0] == [];
      }
    }
  }

  lemma {:induction false} FilterAppend<T>(accepts: T -> bool, a: seq<T>, b: seq<T>)
    ensures Filter(accepts, a + b) == Filter(accepts, a) + Filter(accepts, b)
  {
    if b != [] {
      var init := b[..|b| - 1];
      FilterAppend(accepts, a, init);
      assert (a + b)[..|a + b| - 1] == a + init;
    } else {
      assert a + b == a;
    }
  }

  /** `filterInts`: a new list of the accepted elements. */
  method FilterInts<T(==)>(accepts: T -> bool, elements: seq<T>) returns (r: seq<T>)
    ensures r == Filter(accepts, elements)
  {
    r := [];
    for i := 0 to |elements|
      invariant r == Filter(accepts, elements[..i])
    {
      assert elements[..i + 1][..i] == elements[..i];
      if accepts(elements[i]) {
        r := r + [elements[i]];
      }
    }
    assert elements[..|elements|] == elements;
  }

  /** `any`: some element is accepted. */
  method Any<T>(accepts: T -> bool, coll: seq<T>) returns (r: bool)
    ensures r <==> exists i :: 0 <= i < |coll| && accepts(coll[i])
  {
    for i := 0 to |coll|
      invariant forall k :: 0 <= k < i ==> !accepts(coll[k])
    {
      if accepts(coll[i]) {
        return true;
      }
    }
    return false;
  }

  /** `all`: every element is accepted. */
  method All<T>(accepts: T -> bool, coll: seq<T>) returns (r: bool)
    ensures r <==> forall i :: 0 <= i < |coll| ==> accepts(coll[i])
  {
    for i := 0 to |coll|
      invariant forall k :: 0 <= k < i ==> accepts(coll[k])
    {
      if !accepts(coll[i]) {
        return false;
      }
    }
    return true;
  }

  /** `listIntersection`: the elements of `coll1` that `coll2` contains, in `coll1`'s order and multiplicity. */
  method ListIntersection<T(==)>(coll1: seq<T>, coll2: seq<T>) returns (intersect: seq<T>)
    ensures intersect == Filter((t: T) => t in coll2, coll1)
  {
    intersect := [];
    for i := 0 to |coll1|
      invariant intersect == Filter((t: T) => t in coll2, coll1[..i])
    {
      assert coll1[..i + 1][..i] == coll1[..i];
      if coll1[i] in coll2 {
        intersect := intersect + [coll1[i]];
      }
    }
    assert coll1[..|coll1|] == coll1;
  }

  /** The intersection holds exactly the common elements. */
  lemma IntersectionMeaning<T>(coll1: seq<T>, coll2: seq<T>, t: T)
    ensures t in Filter((t: T) => t in coll2, coll1) <==> t in coll1 && t in coll2
  {
  }

  // ---------------------------------------------------------------- indexes

  /** The values `indexAsBinary(numberLength, index)` answers: TRUE where the Java bit test succeeds, most significant first. */
  function BinaryValues(numberLength: nat, index: Int32): (r: seq<BooleanValue>)
    ensures |r| == numberLength
  {
    seq(numberLength, p requires 0 <= p < numberLength =>
      FromBool(JavaBitSet(index, numberLength - 1 - p)))
  }

  /**
   * `indexAsBinary`: the same doubling `int` bit mask as `Mask.fromIndex`, writing TRUE/FALSE;
   * a negative length fails when the array is created.
   */
  method IndexAsBinary(numberLength: int, index: Int32) returns (r: Result<seq<BooleanValue>>)
    ensures numberLength < 0 ==> r == Failure(NegativeArraySize)
    ensures numberLength >= 0 ==> r == Success(BinaryValues(numberLength, index))
  {
    if numberLength < 0 {
      return Failure(NegativeArraySize);
    }
    var values := new BooleanValue[numberLength];
    var bitMask: Int32 := 1;
    var bitPosition := 0;
    while bitPosition < numberLength
      invariant 0 <= bitPosition <= numberLength
      invariant bitMask == JavaBitMask(bitPosition)
      invariant forall p :: numberLength - bitPosition <= p < numberLength ==>
        values[p] == BinaryValues(numberLength, index)[p]
    {
      JavaBitTest(index, bitPosition);
      ghost var spec := BinaryValues(numberLength, index);
      assert spec[numberLength - 1 - bitPosition] == FromBool(JavaBitSet(index, bitPosition));
      if BitAnd(Unsigned(index), Unsigned(bitMask)) == 0 {
        values[numberLength - 1 - bitPosition] := FALSE;
      } else {
        values[numberLength - 1 - bitPosition] := TRUE;
      }
      JavaBitMaskStep(bitPosition);
      bitMask := Wrap(bitMask * 2);
      bitPosition := bitPosition + 1;
    }
    assert values[..] == BinaryValues(numberLength, index);
    r := Success(values[..]);
  }

  /** `indexAsBinary` and `Mask.fromIndex` agree: TRUE exactly where the mask has ONE, never DONT_CARE. */
  lemma BinaryValuesMatchMask(numberLength: nat, index: Int32)
    ensures forall p :: 0 <= p < numberLength ==>
      (BinaryValues(numberLength, index)[p] == TRUE <==> IndexMask(numberLength, index).values[p] == ONE) &&
      BinaryValues(numberLength, index)[p] != BooleanValue.DONT_CARE
  {
    forall p | 0 <= p < numberLength
      ensures (BinaryValues(numberLength, index)[p] == TRUE <==> IndexMask(numberLength, index).values[p] == ONE)
      ensures BinaryValues(numberLength, index)[p] != BooleanValue.DONT_CARE
    {
      assert BinaryValues(numberLength, index)[p] == FromBool(JavaBitSet(index, numberLength - 1 - p));
    }
  }

  /** The TRUE positions of `v`, read as bits, most significant first. */
  function TruthBits(v: seq<BooleanValue>): (r: seq<bool>)
    ensures |r| == |v|
  {
    seq(|v|, p requires 0 <= p < |v| => v[p] == TRUE)
  }

  /** For 0 <= index < 2^numberLength, the TRUE positions of `indexAsBinary` spell `index` in binary. */
  lemma BinaryValuesRoundTrip(numberLength: nat, index: Int32)
    requires 0 <= index < Pow2(numberLength)
    ensures Pack(TruthBits(BinaryValues(numberLength, index))) == index
  {
    var bits := TruthBits(BinaryValues(numberLength, index));
    forall p | 0 <= p < numberLength ensures bits[p] == Digits(numberLength, index)[p] {
      DigitsAt(numberLength, index, p);
      JavaBitOfNonNegative(index, numberLength - 1 - p);
    }
    assert bits == Digits(numberLength, index);
    PackDigits(numberLength, index);
  }

  /**
   * `range(start, end, step)`: start, start + step, ... while below `end`. The requires is exactly
   * the set of inputs on which the Java loop ends without `i += step` wrapping around `int`: an
   * empty range, or a positive step whose last increment (the first value at or past `end`) is
   * still below 2^31. A zero step never ends and a negative step wraps `i` around.
   */
  method Range(start: Int32, end: Int32, step: Int32) returns (r: seq<Int32>)
    requires start >= end || (step > 0 && start + ((end - start + step - 1) / step) * step < TWO_31)
    ensures forall k :: 0 <= k < |r| ==> r[k] == start + k * step && r[k] < end
    ensures start + |r| * step >= end
  {
    r := [];
    var i: int := start;
    while i < end
      invariant i == start + |r| * step
      invariant i >= end ==> start >= end || |r| > 0
      invariant forall k :: 0 <= k < |r| ==> r[k] == start + k * step && r[k] < end
      decreases end - i
    {
      assert start <= i;
      r := r + [i];
      i := i + step;
    }
  }

  /** A range with step 1 from 0 lists 0, 1, ..., end - 1. */
  lemma RangeOfOne(r: seq<int>, end: int)
    requires forall k :: 0 <= k < |r| ==> r[k] == 0 + k * 1 && r[k] < end
    requires 0 + |r| * 1 >= end
    ensures |r| == if end < 0 then 0 else end
    ensures forall k :: 0 <= k < |r| ==> r[k] == k
  {
    if |r| > 0 {
      assert r[|r| - 1] < end;
    }
  }

  /**
   * `binaryVariationsCount(n)`: 2^n by repeated `count *= 2` on an `int`; 1 for n <= 0, the sign
   * bit for n = 31 and 0 from n = 32 on, where Java's multiplication has wrapped.
   */
  method BinaryVariationsCount(n: Int32) returns (count: Int32)
    ensures count == JavaBitMask(if n < 0 then 0 else n)
    ensures 0 <= n <= 30 ==> count == Pow2(n)
    ensures n == 31 ==> count == -TWO_31
    ensures n >= 32 ==> count == 0
  {
    count := 1;
    var i := 0;
    while i < n
      invariant if n < 0 then i == 0 else 0 <= i <= n
      invariant count == JavaBitMask(i)
    {
      JavaBitMaskStep(i);
      count := Wrap(count * 2);
      i := i + 1;
    }
    assert i == if n < 0 then 0 else n;
    Pow2Values();
  }

  // ---------------------------------------------------------------- copies

  /** `copyIntList`: an equal new list. */
  method CopyIntList(ls: seq<Int32>) returns (newLs: seq<Int32>)
    ensures newLs == ls
  {
    newLs := [];
    for i := 0 to |ls|
      invariant newLs == ls[..i]
    {
      newLs := newLs + [ls[i]];
    }
  }

  /** `copyMaskList`: masks never change, so their clones are the same values. */
  method CopyMaskList(ls: seq<Mask>) returns (newLs: seq<Mask>)
    ensures newLs == ls
  {
    newLs := [];
    for i := 0 to |ls|
      invariant newLs == ls[..i]
    {
      newLs := newLs + [ls[i]];
    }
  }

  /** Variables with the same names and current values, position by position. */
  ghost predicate SameVariables(copies: seq<BooleanVariable>, originals: seq<BooleanVariable>)
    reads set x | x in copies, set x | x in originals
  {
    |copies| == |originals| &&
    forall i :: 0 <= i < |copies| ==> copies[i].name == originals[i].name && copies[i].value == originals[i].value
  }

  /** `copyBooleanVariableList`: a new, distinct variable with the same name and value for each one. */
  method CopyBooleanVariableList(ls: seq<BooleanVariable>) returns (newLs: seq<BooleanVariable>)
    ensures fresh(newLs)
    ensures SameVariables(newLs, ls)
    ensures forall i, j :: 0 <= i < j < |newLs| ==> newLs[i] != newLs[j]
  {
    newLs := [];
    for i := 0 to |ls|
      invariant fresh(newLs)
      invariant SameVariables(newLs, ls[..i])
      invariant forall k, l :: 0 <= k < l < i ==> newLs[k] != newLs[l]
    {
      var c := ls[i].Clone();
      newLs := newLs + [c];
    }
  }
}
