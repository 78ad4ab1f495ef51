/**
 * `Implicant`: a mask of the minimisation together with the minterms it covers and, once
 * Petrick's method has named it, an alias.
 */
module Implicants {
  import opened Wrappers
  import opened Bits
  import TernaryMask

  class Implicant {
    /** The caller's minterm set, kept as it was given. */
    const minterms: set<Int32>
    const mask: TernaryMask.Mask
    /** `null` until `setAlias` is called. */
    var alias: Option<string>

    constructor (minterms: set<Int32>, mask: TernaryMask.Mask)
      ensures this.minterms == minterms && this.mask == mask && alias == None
    {
      this.minterms := minterms;
      this.mask := mask;
      alias := None;
    }

    /** `setAlias`: the alias becomes the argument (`null` included); minterms and mask stay. */
    method SetAlias(alias: Option<string>)
      modifies this
      ensures this.alias == alias
    {
      this.alias := alias;
    }

    /**
     * `equals`: the same object, or equal aliases (both `null` or equal strings), equal masks
     * and equal minterm sets.
     */
    predicate Equals(other: Implicant)
      reads this, other
      ensures Equals(other) <==> alias == other.alias && mask == other.mask && minterms == other.minterms
    {
      this == other ||
      (alias == other.alias && TernaryMask.Equals(mask, other.mask) && minterms == other.minterms)
    }
  }

  /** Every implicant before position `p` has an alias, and none of them is `otherAlias`. */
  ghost predicate PassedOver(implicants: seq<Implicant>, otherAlias: string, p: int)
    requires 0 <= p <= |implicants|
    reads implicants
  {
    forall q :: 0 <= q < p ==> implicants[q].alias.Some? && implicants[q].alias.value != otherAlias
  }

  /**
   * The search of `getMaskByAlias` from position `i` on: an implicant without an alias ends it
   * with NullPointerException, one with the alias looked for ends it with its mask, and running
   * out of implicants ends it with `null`.
   */
  function MaskByAlias(implicants: seq<Implicant>, otherAlias: string, i: nat): Result<Option<TernaryMask.Mask>>
    requires i <= |implicants|
    reads implicants
    decreases |implicants| - i
  {
    if i == |implicants| then Success(None)
    else if implicants[i].alias.None? then Failure(NullPointer)
    else if implicants[i].alias.value == otherAlias then Success(Some(implicants[i].mask))
    else MaskByAlias(implicants, otherAlias, i + 1)
  }

  /**
   * The answer is decided by the first implicant that has no alias or has the one looked for:
   * `null` exactly when there is no such implicant, its mask when it carries the alias, and
   * NullPointerException when it has none.
   */
  lemma {:induction false} MaskByAliasMeaning(implicants: seq<Implicant>, otherAlias: string, i: nat)
    requires i <= |implicants| && PassedOver(implicants, otherAlias, i)
    ensures MaskByAlias(implicants, otherAlias, i) == Success(None) <==> PassedOver(implicants, otherAlias, |implicants|)
    ensures forall p :: i <= p < |implicants| && PassedOver(implicants, otherAlias, p) && implicants[p].alias == Some(otherAlias) ==>
      MaskByAlias(implicants, otherAlias, i) == Success(Some(implicants[p].mask))
    ensures forall p :: i <= p < |implicants| && PassedOver(implicants, otherAlias, p) && implicants[p].alias.None? ==>
      MaskByAlias(implicants, otherAlias, i) == Failure(NullPointer)
    decreases |implicants| - i
  {
    if i < |implicants| && implicants[i].alias.Some? && implicants[i].alias.value != otherAlias {
      MaskByAliasMeaning(implicants, otherAlias, i + 1);
    }
    if i < |implicants| && !(implicants[i].alias.Some? && implicants[i].alias.value != otherAlias) {
      assert !PassedOver(implicants, otherAlias, |implicants|);
      forall p | i <= p < |implicants| && PassedOver(implicants, otherAlias, p)
        ensures p == i
      {
      }
    }
  }

  /** `getMaskByAlias`: the loop over the implicants, in iteration order, with its early returns. */
  method GetMaskByAlias(implicants: seq<Implicant>, otherAlias: string) returns (r: Result<Option<TernaryMask.Mask>>)
    ensures r == MaskByAlias(implicants, otherAlias, 0)
  {
    for i := 0 to |implicants|
      invariant MaskByAlias(implicants, otherAlias, i) == MaskByAlias(implicants, otherAlias, 0)
    {
      var implicant := implicants[i];
      if implicant.alias.None? {
        return Failure(NullPointer);
      }
      if implicant.alias.value == otherAlias {
        return Success(Some(implicant.mask));
      }
    }
    return Success(None);
  }
}
