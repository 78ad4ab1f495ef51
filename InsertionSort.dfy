/**
 * `StraightInsertionionSorter`: insertion sort of an `int[]` in place, by swapping each new
 * element down past its larger neighbours.
 */
module InsertionSort {
  import opened Wrappers

  predicate Sorted(s: seq<int>) {
    forall p, q :: 0 <= p < q < |s| ==> s[p] <= s[q]
  }

  /** `n` cut to the bounds of an array of length `len`. */
  function Clamp(n: int, len: nat): (r: nat)
    ensures r <= len
    ensures 0 <= n <= len ==> r == n
  {
    if n < 0 then 0 else if n > len then len else n
  }

  /** `swap`: exchanges two cells and nothing else. */
  method Swap(a: array<int>, i: nat, j: nat)
    requires i < a.Length && j < a.Length
    modifies a
    ensures a[i] == old(a[j]) && a[j] == old(a[i])
    ensures forall k :: 0 <= k < a.Length && k != i && k != j ==> a[k] == old(a[k])
    ensures multiset(a[..]) == multiset(old(a[..]))
  {
    var tmp := a[i];
    a[i] := a[j];
    a[j] := tmp;
  }

  /**
   * The inner loop for one `i`: the element at `i` is swapped down while its left neighbour is
   * larger, down to index 1 whatever the start of the range.
   */
  method InsertDown(a: array<int>, i: nat)
    requires i < a.Length
    modifies a
    ensures multiset(a[..]) == multiset(old(a[..]))
    ensures forall k :: i < k < a.Length ==> a[k] == old(a[k])
    ensures Sorted(old(a[..i])) ==> Sorted(a[..i + 1])
    ensures Sorted(old(a[..i + 1])) ==> a[..] == old(a[..])
  {
    ghost var prefixSorted := Sorted(a[..i]);
    ghost var allSorted := Sorted(a[..i + 1]);
    var j := i;
    while j > 0 && a[j - 1] > a[j]
      invariant 0 <= j <= i
      invariant multiset(a[..]) == multiset(old(a[..]))
      invariant forall k :: i < k < a.Length ==> a[k] == old(a[k])
      invariant allSorted ==> j == i && a[..] == old(a[..])
      invariant prefixSorted ==> forall p, q :: 0 <= p < q <= i && p != j && q != j ==> a[p] <= a[q]
      invariant prefixSorted ==> forall q :: j < q <= i ==> a[j] <= a[q]
      decreases j
    {
      Swap(a, j - 1, j);
      j := j - 1;
    }
  }

  /** Some index of `[startIndex, endIndex)` is positive and not below the length `len`. */
  predicate ReadsPastEnd(startIndex: int, endIndex: int, len: nat) {
    var firstBad := if len < 1 then 1 else len;
    (if startIndex < firstBad then firstBad else startIndex) < endIndex
  }

  /**
   * `sort(array, startIndex, endIndex)`: inserts each element of the range in turn. An index of
   * the range that is positive and not below the length makes the inner loop read past the end,
   * which ends the sort with ArrayIndexOutOfBoundsException once the earlier elements are in.
   * The array stays a permutation of itself, nothing from `endIndex` on moves, an array already
   * ascending is untouched, and when `array[0..startIndex)` was ascending `array[0..endIndex)` is.
   */
  method SortRange(a: array<int>, startIndex: int, endIndex: int) returns (r: Option<Error>)
    modifies a
    ensures r.Some? <==> ReadsPastEnd(startIndex, endIndex, a.Length)
    ensures r.Some? ==> r.value == IndexOutOfBounds
    ensures multiset(a[..]) == multiset(old(a[..]))
    ensures forall k :: Clamp(endIndex, a.Length) <= k < a.Length ==> a[k] == old(a[k])
    ensures Sorted(old(a[..Clamp(startIndex, a.Length)])) ==> Sorted(a[..Clamp(endIndex, a.Length)])
    ensures Sorted(old(a[..])) ==> a[..] == old(a[..])
  {
    ghost var prefixSorted := Sorted(a[..Clamp(startIndex, a.Length)]);
    ghost var allSorted := Sorted(a[..]);
    ghost var firstBad := if a.Length < 1 then 1 else a.Length;
    var i := startIndex;
    while i < endIndex
      invariant startIndex <= i && (i == startIndex || (i <= firstBad && i <= endIndex))
      invariant multiset(a[..]) == multiset(old(a[..]))
      invariant forall k :: Clamp(i, a.Length) <= k < a.Length ==> a[k] == old(a[k])
      invariant prefixSorted ==> Sorted(a[..Clamp(i, a.Length)])
      invariant allSorted || i == startIndex ==> a[..] == old(a[..])
      decreases endIndex - i
    {
      if i > 0 && i >= a.Length {
        return Some(IndexOutOfBounds);
      }
      if i > 0 {
        assert a[..i + 1][..i] == a[..i];
        InsertDown(a, i);
      }
      i := i + 1;
    }
    assert a[..Clamp(endIndex, a.Length)] == a[..Clamp(i, a.Length)][..Clamp(endIndex, a.Length)];
    r := None;
  }

  /** `sort(array)`: the whole array ends ascending and a permutation of what it held. */
  method Sort(a: array<int>)
    modifies a
    ensures Sorted(a[..]) && multiset(a[..]) == multiset(old(a[..]))
  {
    var r := SortRange(a, 0, a.Length);
    assert a[..a.Length] == a[..];
  }
}
