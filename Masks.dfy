/** `Masks`: building lists of masks from indexes or from strings. */
module Masks {
  import opened Wrappers
  import opened Bits
  import opened TernaryMask

  /**
   * `fromIndexes`: the mask of each index, in the order given; the first `fromIndex` call fails
   * on a negative size, so that failure needs at least one index.
   */
  method FromIndexes(domainSize: int, indexes: seq<Int32>) returns (r: Result<seq<Mask>>)
    ensures r.Failure? <==> domainSize < 0 && |indexes| > 0
    ensures r.Failure? ==> r.error == NegativeArraySize
    ensures r.Success? ==> |r.value| == |indexes|
    ensures r.Success? ==> forall i :: 0 <= i < |indexes| ==>
      domainSize >= 0 && r.value[i] == IndexMask(domainSize, indexes[i])
  {
    var arr := new Mask[|indexes|];
    for index := 0 to |indexes|
      invariant index > 0 ==> domainSize >= 0
      invariant forall i :: 0 <= i < index ==> domainSize >= 0 && arr[i] == IndexMask(domainSize, indexes[i])
    {
      var mask := FromIndex(domainSize, indexes[index]);
      if mask.Failure? {
        return Failure(mask.error);
      }
      arr[index] := mask.value;
    }
    r := Success(arr[..]);
  }

  /**
   * `fromStrings`: the mask of each string, in the order given; IllegalArgumentException as soon
   * as one of the strings is not made of '0', '1' and 'x'.
   */
  method FromStrings(strings: seq<string>) returns (r: Result<seq<Mask>>)
    ensures r.Failure? <==> exists i :: 0 <= i < |strings| && ParseSpec(strings[i]).Failure?
    ensures r.Failure? ==> r.error == IllegalArgument
    ensures r.Success? ==> |r.value| == |strings|
    ensures r.Success? ==> forall i :: 0 <= i < |strings| ==> ParseSpec(strings[i]) == Success(r.value[i])
  {
    var arr := new Mask[|strings|];
    for index := 0 to |strings|
      invariant forall i :: 0 <= i < index ==> ParseSpec(strings[i]) == Success(arr[i])
    {
      var parsed := Parse(strings[index]);
      if parsed.Failure? {
        return Failure(IllegalArgument);
      }
      arr[index] := parsed.value;
    }
    r := Success(arr[..]);
  }

  /** Indexes that are distinct and below 2^domainSize give distinct masks without don't-cares. */
  lemma FromIndexesDistinct(domainSize: nat, indexes: seq<Int32>, masks: seq<Mask>)
    requires |masks| == |indexes|
    requires forall i :: 0 <= i < |indexes| ==> masks[i] == IndexMask(domainSize, indexes[i])
    requires forall i :: 0 <= i < |indexes| ==> 0 <= indexes[i] < Pow2(domainSize)
    requires forall i, j :: 0 <= i < j < |indexes| ==> indexes[i] != indexes[j]
    ensures forall i :: 0 <= i < |masks| ==> DontCareCount(masks[i]) == 0
    ensures forall i, j :: 0 <= i < j < |masks| ==> masks[i] != masks[j]
  {
    forall i, j | 0 <= i < |masks| && 0 <= j < |masks|
      ensures DontCareCount(masks[i]) == 0 && (masks[i] == masks[j] ==> indexes[i] == indexes[j])
    {
      IndexMaskInjective(domainSize, indexes[i], indexes[j]);
    }
  }

  /** Printing masks and reading the strings back with `fromStrings` gives the masks again. */
  lemma FromStringsPrinted(masks: seq<Mask>, strings: seq<string>)
    requires |strings| == |masks|
    requires forall i :: 0 <= i < |masks| ==> strings[i] == MaskString(masks[i])
    ensures forall i :: 0 <= i < |strings| ==> ParseSpec(strings[i]) == Success(masks[i])
  {
    forall i | 0 <= i < |masks| ensures ParseSpec(strings[i]) == Success(masks[i]) {
      ParsePrinted(masks[i]);
    }
  }
}
