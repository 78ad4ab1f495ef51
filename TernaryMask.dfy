/**
 * `Mask`: a fixed sequence of ZERO / ONE / DONT_CARE positions describing a group of indexes.
 * The Java class copies the array it is given and never changes it afterwards, so a mask is a
 * value here; `clone` and the copying constructor are the identity on values.
 */
module TernaryMask {
  import opened Wrappers
  import opened MaskValues
  import opened Bits
  import opened Counting

  datatype Mask = Mask(values: seq<MaskValue>)

  /** Position k of `s` holds `v`. */
  function HoldsAt(s: seq<MaskValue>, v: MaskValue): nat -> bool {
    (k: nat) => k < |s| && s[k] == v
  }

  /** Number of positions of `s` holding `v`. */
  function Occurrences(s: seq<MaskValue>, v: MaskValue): nat {
    Count(|s|, HoldsAt(s, v))
  }

  function DontCareCount(m: Mask): nat {
    Occurrences(m.values, DONT_CARE)
  }

  /** `m` is more general than `other`: it has more don't-care positions. */
  predicate MoreGeneral(m: Mask, other: Mask) {
    DontCareCount(m) > DontCareCount(other)
  }

  // ---------------------------------------------------------------- getValue / equals

  /** `getValue(index)`: the value at `index`, refused outside the mask. */
  function GetValue(m: Mask, index: int): (r: Result<MaskValue>)
    ensures r.Failure? <==> !(0 <= index < |m.values|)
    ensures r.Failure? ==> r.error == IllegalArgument
    ensures r.Success? ==> r.value == m.values[index]
  {
    if index >= |m.values| || index < 0 then Failure(IllegalArgument) else Success(m.values[index])
  }

  /** `equals`: two masks are equal exactly when they hold the same values position by position. */
  function Equals(m: Mask, other: Mask): (r: bool)
    ensures r <==> |m.values| == |other.values| &&
                   forall i :: 0 <= i < |m.values| ==> m.values[i] == other.values[i]
  {
    m.values == other.values
  }

  // ---------------------------------------------------------------- counting

  /** `getNumberOf(what)`: counts the positions holding `what`. */
  method GetNumberOf(m: Mask, what: MaskValue) returns (cnt: nat)
    ensures cnt == Occurrences(m.values, what)
  {
    cnt := 0;
    var i := 0;
    while i < |m.values|
      invariant 0 <= i <= |m.values|
      invariant cnt == Count(i, HoldsAt(m.values, what))
    {
      if m.values[i] == what {
        cnt := cnt + 1;
      }
      i := i + 1;
    }
  }

  /** Every position holds exactly one of the three values. */
  lemma OccurrencesSum(s: seq<MaskValue>)
    ensures Occurrences(s, ZERO) + Occurrences(s, ONE) + Occurrences(s, DONT_CARE) == |s|
  {
    var notDontCare := (k: nat) => k < |s| && s[k] != DONT_CARE;
    CountSplit(|s|, notDontCare, HoldsAt(s, ZERO), HoldsAt(s, ONE));
    CountSplit(|s|, (k: nat) => k < |s|, notDontCare, HoldsAt(s, DONT_CARE));
    CountAll(|s|, (k: nat) => k < |s|);
  }

  /**
   * `isMoreGeneral(other)`: refused for masks of different lengths; otherwise whether this mask
   * has more don't-care positions, computed as the length minus the ones and the zeros.
   */
  method IsMoreGeneral(m: Mask, other: Mask) returns (r: Result<bool>)
    ensures r.Failure? <==> |m.values| != |other.values|
    ensures r.Failure? ==> r.error == IllegalArgument
    ensures r.Success? ==> (r.value <==> MoreGeneral(m, other))
  {
    var maskLen := |other.values|;
    if maskLen != |m.values| {
      return Failure(IllegalArgument);
    }
    var onesThis := GetNumberOf(m, ONE);
    var zerosThis := GetNumberOf(m, ZERO);
    var onesOther := GetNumberOf(other, ONE);
    var zerosOther := GetNumberOf(other, ZERO);
    OccurrencesSum(m.values);
    OccurrencesSum(other.values);
    var undefinedThis := maskLen - onesThis - zerosThis;
    var undefinedOther := maskLen - onesOther - zerosOther;
    r := Success(undefinedThis > undefinedOther);
  }

  // ---------------------------------------------------------------- fromIndex

  /** The mask `fromIndex(domainSize, index)` builds: position p is ONE exactly when the Java bit test at step `domainSize - 1 - p` succeeds. */
  function IndexMask(domainSize: nat, index: Int32): (m: Mask)
    ensures |m.values| == domainSize
  {
    Mask(seq(domainSize, p requires 0 <= p < domainSize =>
      if JavaBitSet(index, domainSize - 1 - p) then ONE else ZERO))
  }

  /**
   * `fromIndex`: writes the bits of `index` most significant first, testing `index & bitMask`
   * with an `int` mask that doubles each step; a negative size fails when the array is created.
   */
  method FromIndex(domainSize: int, index: Int32) returns (r: Result<Mask>)
    ensures domainSize < 0 ==> r == Failure(NegativeArraySize)
    ensures domainSize >= 0 ==> r == Success(IndexMask(domainSize, index))
  {
    if domainSize < 0 {
      return Failure(NegativeArraySize);
    }
    var maskFromIndex := new MaskValue[domainSize];
    var bitMask: Int32 := 1;
    var bitPosition := 0;
    while bitPosition < domainSize
      invariant 0 <= bitPosition <= domainSize
      invariant bitMask == JavaBitMask(bitPosition)
      invariant forall p :: domainSize - bitPosition <= p < domainSize ==>
        maskFromIndex[p] == IndexMask(domainSize, index).values[p]
    {
      JavaBitTest(index, bitPosition);
      if BitAnd(Unsigned(index), Unsigned(bitMask)) == 0 {
        maskFromIndex[domainSize - 1 - bitPosition] := ZERO;
      } else {
        maskFromIndex[domainSize - 1 - bitPosition] := ONE;
      }
      JavaBitMaskStep(bitPosition);
      bitMask := Wrap(bitMask * 2);
      bitPosition := bitPosition + 1;
    }
    assert maskFromIndex[..] == IndexMask(domainSize, index).values;
    r := Success(Mask(maskFromIndex[..]));
  }

  /** For a non-negative index, `fromIndex` spells the index's binary digits. */
  lemma IndexMaskDigits(domainSize: nat, index: Int32, p: nat)
    requires index >= 0 && p < domainSize
    ensures IndexMask(domainSize, index).values[p] == if Digits(domainSize, index)[p] then ONE else ZERO
  {
    DigitsAt(domainSize, index, p);
    JavaBitOfNonNegative(index, domainSize - 1 - p);
  }

  /** Distinct indexes in 0 .. 2^domainSize - 1 give distinct masks, none with a DONT_CARE. */
  lemma IndexMaskInjective(domainSize: nat, i: Int32, j: Int32)
    requires 0 <= i < Pow2(domainSize) && 0 <= j < Pow2(domainSize)
    ensures DontCareCount(IndexMask(domainSize, i)) == 0
    ensures IndexMask(domainSize, i) == IndexMask(domainSize, j) ==> i == j
  {
    var m := IndexMask(domainSize, i);
    CountAllFalseAt(m.values);
    if m == IndexMask(domainSize, j) {
      forall p | 0 <= p < domainSize ensures Digits(domainSize, i)[p] == Digits(domainSize, j)[p] {
        IndexMaskDigits(domainSize, i, p);
        IndexMaskDigits(domainSize, j, p);
      }
      assert Digits(domainSize, i) == Digits(domainSize, j);
      PackDigits(domainSize, i);
      PackDigits(domainSize, j);
    }
  }

  lemma CountAllFalseAt(s: seq<MaskValue>)
    requires forall p :: 0 <= p < |s| ==> s[p] != DONT_CARE
    ensures Occurrences(s, DONT_CARE) == 0
  {
    CountImplies(|s|, HoldsAt(s, DONT_CARE), (k: nat) => false);
    CountAllFalse(|s|);
  }

  // ---------------------------------------------------------------- parse / toString

  function CharValue(c: char): Option<MaskValue> {
    match c
    case '0' => Some(ZERO)
    case '1' => Some(ONE)
    case 'x' => Some(DONT_CARE)
    case _ => None
  }

  function ValueChar(v: MaskValue): char {
    match v
    case ZERO => '0'
    case ONE => '1'
    case DONT_CARE => 'x'
  }

  predicate WellFormedMaskString(s: string) {
    forall i :: 0 <= i < |s| ==> CharValue(s[i]).Some?
  }

  /** What `parse` answers: the mask of the characters, or IllegalArgumentException. */
  function ParseSpec(s: string): Result<Mask> {
    if WellFormedMaskString(s) then
      Success(Mask(seq(|s|, i requires 0 <= i < |s| && WellFormedMaskString(s) => CharValue(s[i]).value)))
    else
      Failure(IllegalArgument)
  }

  /** What `toString` answers. */
  function MaskString(m: Mask): (s: string)
    ensures |s| == |m.values|
  {
    seq(|m.values|, i requires 0 <= i < |m.values| => ValueChar(m.values[i]))
  }

  /** `parse`: one mask position per character, failing on the first character not in "01x". */
  method Parse(stringMask: string) returns (r: Result<Mask>)
    ensures r == ParseSpec(stringMask)
  {
    var maskLength := |stringMask|;
    var maskFromString := new MaskValue[maskLength];
    var bitPosition := 0;
    while bitPosition < maskLength
      invariant 0 <= bitPosition <= maskLength
      invariant forall i :: 0 <= i < bitPosition ==>
        CharValue(stringMask[i]) == Some(maskFromString[i])
    {
      match stringMask[bitPosition] {
        case '0' => maskFromString[bitPosition] := ZERO;
        case '1' => maskFromString[bitPosition] := ONE;
        case 'x' => maskFromString[bitPosition] := DONT_CARE;
        case _ => return Failure(IllegalArgument);
      }
      bitPosition := bitPosition + 1;
    }
    assert Mask(maskFromString[..]) == ParseSpec(stringMask).value;
    r := Success(Mask(maskFromString[..]));
  }

  /** `toString`: one character per position. */
  method ToString(m: Mask) returns (s: string)
    ensures s == MaskString(m)
  {
    s := "";
    for i := 0 to |m.values|
      invariant s == MaskString(m)[..i]
    {
      var mv := m.values[i];
      if mv == DONT_CARE {
        s := s + "x";
      }
      if mv == ONE {
        s := s + "1";
      }
      if mv == ZERO {
        s := s + "0";
      }
    }
  }

  /** Printing a mask and parsing the text gives the mask back. */
  lemma ParsePrinted(m: Mask)
    ensures ParseSpec(MaskString(m)) == Success(m)
  {
    var s := MaskString(m);
    assert forall i :: 0 <= i < |s| ==> CharValue(s[i]) == Some(m.values[i]);
    assert ParseSpec(s).value.values == m.values;
  }

  /** A string that parses is printed back unchanged. */
  lemma PrintParsed(s: string)
    requires ParseSpec(s).Success?
    ensures MaskString(ParseSpec(s).value) == s
  {
    var m := ParseSpec(s).value;
    assert forall i :: 0 <= i < |s| ==> ValueChar(m.values[i]) == s[i];
  }

  // ---------------------------------------------------------------- combine

  /** Positions where the two masks differ. */
  function DiffersAt(a: Mask, b: Mask): nat -> bool {
    (k: nat) => k < |a.values| && k < |b.values| && a.values[k] != b.values[k]
  }

  /** Positions where both masks hold DONT_CARE. */
  function BothDontCareAt(a: Mask, b: Mask): nat -> bool {
    (k: nat) => k < |a.values| && k < |b.values| &&
      a.values[k] == DONT_CARE && b.values[k] == DONT_CARE
  }

  /** The mask `combine` builds: DONT_CARE where the two differ, their common value elsewhere. */
  function Merge(a: Mask, b: Mask): (c: Mask)
    requires |a.values| == |b.values|
    ensures |c.values| == |a.values|
  {
    Mask(seq(|a.values|, k requires 0 <= k < |a.values| =>
      if a.values[k] != b.values[k] then DONT_CARE else a.values[k]))
  }

  /**
   * What `combine(m1, m2)` answers: IllegalArgumentException for masks of different lengths;
   * `null` when either is more general, when they share more than one DONT_CARE or when they do
   * not differ in exactly one position; otherwise the merged mask.
   */
  function CombineSpec(m1: Mask, m2: Mask): Result<Option<Mask>> {
    if |m1.values| != |m2.values| then Failure(IllegalArgument)
    else if MoreGeneral(m1, m2) || MoreGeneral(m2, m1) then Success(None)
    else if Count(|m1.values|, BothDontCareAt(m1, m2)) > 1 then Success(None)
    else if Count(|m1.values|, DiffersAt(m1, m2)) != 1 then Success(None)
    else Success(Some(Merge(m1, m2)))
  }

  /** Two shared DONT_CAREs, or two differences, among the first `i` positions rule a combination out. */
  lemma RefusedEarly(m1: Mask, m2: Mask, i: nat, f: nat -> bool)
    requires |m1.values| == |m2.values| && i <= |m1.values|
    requires !MoreGeneral(m1, m2) && !MoreGeneral(m2, m1)
    requires f == BothDontCareAt(m1, m2) || f == DiffersAt(m1, m2)
    requires Count(i, f) > 1
    ensures CombineSpec(m1, m2) == Success(None)
  {
    CountMonotone(i, |m1.values|, f);
  }

  /** `combine`: scans both masks once, giving up as soon as a second shared DONT_CARE or a second difference shows. */
  method Combine(m1: Mask, m2: Mask) returns (r: Result<Option<Mask>>)
    ensures r == CombineSpec(m1, m2)
  {
    if |m1.values| != |m2.values| {
      return Failure(IllegalArgument);
    }
    var g12 := IsMoreGeneral(m1, m2);
    var g21 := IsMoreGeneral(m2, m1);
    if g12.value || g21.value {
      return Success(None);
    }
    var maskLen := |m1.values|;
    var combinedMask := new MaskValue[maskLen];
    var isCombinable := false;
    var undefinedCount := 0;
    var difference := 0;
    var bitPosition := 0;
    while bitPosition < maskLen
      invariant 0 <= bitPosition <= maskLen
      invariant undefinedCount == Count(bitPosition, BothDontCareAt(m1, m2)) <= 1
      invariant difference == Count(bitPosition, DiffersAt(m1, m2)) <= 1
      invariant isCombinable <==> difference >= 1
      invariant forall k :: 0 <= k < bitPosition ==> combinedMask[k] == Merge(m1, m2).values[k]
    {
      var valueM1 := m1.values[bitPosition];
      var valueM2 := m2.values[bitPosition];
      if valueM1 == valueM2 && valueM1 == DONT_CARE {
        undefinedCount := undefinedCount + 1;
        if undefinedCount > 1 {
          RefusedEarly(m1, m2, bitPosition + 1, BothDontCareAt(m1, m2));
          return Success(None);
        }
      }
      if valueM1 != valueM2 {
        difference := difference + 1;
        if difference > 1 {
          RefusedEarly(m1, m2, bitPosition + 1, DiffersAt(m1, m2));
          return Success(None);
        }
        combinedMask[bitPosition] := DONT_CARE;
        isCombinable := true;
      } else {
        combinedMask[bitPosition] := valueM1;
      }
      bitPosition := bitPosition + 1;
    }
    if isCombinable {
      assert combinedMask[..] == Merge(m1, m2).values;
      r := Success(Some(Mask(combinedMask[..])));
    } else {
      r := Success(None);
    }
  }

  /** Don't-care positions of one mask split into those shared with the other and those not. */
  lemma DontCareSplit(a: Mask, b: Mask)
    requires |a.values| == |b.values|
    ensures DontCareCount(a) ==
      Count(|a.values|, BothDontCareAt(a, b)) +
      Count(|a.values|, (k: nat) => k < |a.values| && a.values[k] == DONT_CARE && b.values[k] != DONT_CARE)
  {
    CountSplit(|a.values|, HoldsAt(a.values, DONT_CARE), BothDontCareAt(a, b),
      (k: nat) => k < |a.values| && a.values[k] == DONT_CARE && b.values[k] != DONT_CARE);
  }

  /**
   * A combination exists only for two masks that differ in exactly one position, where one holds
   * ZERO and the other ONE; the result has DONT_CARE there, the common value everywhere else,
   * and one more DONT_CARE than either input.
   */
  lemma CombineSound(m1: Mask, m2: Mask, c: Mask) returns (p: nat)
    requires CombineSpec(m1, m2) == Success(Some(c))
    ensures |c.values| == |m1.values| == |m2.values| && p < |c.values|
    ensures (m1.values[p] == ZERO && m2.values[p] == ONE) || (m1.values[p] == ONE && m2.values[p] == ZERO)
    ensures c.values[p] == DONT_CARE
    ensures forall k :: 0 <= k < |c.values| && k != p ==> c.values[k] == m1.values[k] == m2.values[k]
    ensures DontCareCount(c) == DontCareCount(m1) + 1 == DontCareCount(m2) + 1
  {
    var n := |m1.values|;
    p := CountOne(n, DiffersAt(m1, m2));
    assert forall k :: 0 <= k < n && k != p ==> m1.values[k] == m2.values[k] by {
      forall k | 0 <= k < n && k != p
        ensures m1.values[k] == m2.values[k]
      {
        assert !DiffersAt(m1, m2)(k);
      }
    }
    assert DiffersAt(m1, m2)(p);
    var leftOnly := (k: nat) => k < n && m1.values[k] == DONT_CARE && m2.values[k] != DONT_CARE;
    var rightOnly := (k: nat) => k < n && m2.values[k] == DONT_CARE && m1.values[k] != DONT_CARE;
    var either := (k: nat) => leftOnly(k) || rightOnly(k);
    DontCareSplit(m1, m2);
    DontCareSplit(m2, m1);
    CountSame(n, BothDontCareAt(m1, m2), BothDontCareAt(m2, m1));
    assert Count(n, leftOnly) == Count(n, rightOnly);
    CountSplit(n, either, leftOnly, rightOnly);
    CountImplies(n, either, DiffersAt(m1, m2));
    if m1.values[p] == DONT_CARE {
      CountPositive(n, leftOnly, p);
      assert false;
    }
    if m2.values[p] == DONT_CARE {
      CountPositive(n, rightOnly, p);
      assert false;
    }
    // c gains exactly the don't-care at p
    CountSplit(n, HoldsAt(c.values, DONT_CARE), HoldsAt(m1.values, DONT_CARE),
      (k: nat) => k == p);
    CountSplit(n, HoldsAt(c.values, DONT_CARE), HoldsAt(m2.values, DONT_CARE),
      (k: nat) => k == p);
    CountOnePosition(n, p);
  }

  lemma CountOnePosition(n: nat, p: nat)
    requires p < n
    ensures Count(n, (k: nat) => k == p) == 1
  {
    var f := (k: nat) => k == p;
    if p < n - 1 {
      CountOnePosition(n - 1, p);
    } else {
      CountSame(n - 1, f, (k: nat) => false);
      CountAllFalse(n - 1);
    }
  }

  lemma {:induction false} CountAllFalse(n: nat)
    ensures Count(n, (k: nat) => false) == 0
  {
    if n > 0 {
      CountAllFalse(n - 1);
    }
  }

  /**
   * Conversely, two masks of one length that differ in exactly one position, ZERO against ONE,
   * and share at most one DONT_CARE, are combined into their merge.
   */
  lemma CombineComplete(m1: Mask, m2: Mask, p: nat)
    requires |m1.values| == |m2.values| && p < |m1.values|
    requires (m1.values[p] == ZERO && m2.values[p] == ONE) || (m1.values[p] == ONE && m2.values[p] == ZERO)
    requires forall k :: 0 <= k < |m1.values| && k != p ==> m1.values[k] == m2.values[k]
    requires forall i, j ::
      (0 <= i < j < |m1.values| && m1.values[i] == DONT_CARE && m2.values[i] == DONT_CARE)
      ==> !(m1.values[j] == DONT_CARE && m2.values[j] == DONT_CARE)
    ensures CombineSpec(m1, m2) == Success(Some(Merge(m1, m2)))
  {
    var n := |m1.values|;
    DontCareSplit(m1, m2);
    DontCareSplit(m2, m1);
    CountSame(n, BothDontCareAt(m1, m2), BothDontCareAt(m2, m1));
    var leftOnly := (k: nat) => k < n && m1.values[k] == DONT_CARE && m2.values[k] != DONT_CARE;
    var rightOnly := (k: nat) => k < n && m2.values[k] == DONT_CARE && m1.values[k] != DONT_CARE;
    CountSame(n, leftOnly, (k: nat) => false);
    CountSame(n, rightOnly, (k: nat) => false);
    CountAllFalse(n);
    CountSame(n, DiffersAt(m1, m2), (k: nat) => k == p);
    CountOnePosition(n, p);
    if Count(n, BothDontCareAt(m1, m2)) > 1 {
      AtMostOne(n, BothDontCareAt(m1, m2));
    }
  }

  /** A condition that holds at no two distinct indexes counts at most one. */
  lemma {:induction false} AtMostOne(n: nat, f: nat -> bool)
    requires forall i, j :: 0 <= i < j < n && f(i) ==> !f(j)
    ensures Count(n, f) <= 1
  {
    if n > 0 {
      AtMostOne(n - 1, f);
      if f(n - 1) && Count(n - 1, f) == 1 {
        var q := CountOne(n - 1, f);
        assert false;
      }
    }
  }

  /** `combine` does not depend on the order of its arguments. */
  lemma CombineSymmetric(m1: Mask, m2: Mask)
    ensures CombineSpec(m1, m2) == CombineSpec(m2, m1)
  {
    if |m1.values| == |m2.values| {
      var n := |m1.values|;
      CountSame(n, BothDontCareAt(m1, m2), BothDontCareAt(m2, m1));
      CountSame(n, DiffersAt(m1, m2), DiffersAt(m2, m1));
      assert Merge(m1, m2).values == Merge(m2, m1).values;
    }
  }
}
