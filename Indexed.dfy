/**
 * `IndexedBF`: a Boolean function given by the indexes of its minterms (or maxterms) and of its
 * don't-cares; every question about it goes to a `BFGrandUnifier`.
 */
module Indexed {
  import opened Wrappers
  import opened Values
  import opened Bits
  import opened Variables
  import opened SwissKnife
  import opened GrandUnifier

  /** What `preconditionsIndexedBF` accepts: indexes and don't-cares inside the table, and no index both. */
  predicate Acceptable(tableSize: Int32, indexes: seq<Int32>, dontCares: seq<Int32>) {
    InTable(indexes, tableSize) && InTable(dontCares, tableSize) && Disjoint(indexes, dontCares)
  }

  /** Sorting the don't-care list first does not change what `preconditionsIndexedBF` accepts. */
  lemma AcceptableSorted(tableSize: Int32, indexes: seq<Int32>, dontCares: seq<Int32>)
    ensures Acceptable(tableSize, indexes, Sort(dontCares)) <==> Acceptable(tableSize, indexes, dontCares)
  {
    var sorted := Sort(dontCares);
    forall x {
      SortMembers(dontCares, x);
    }
    assert InTable(sorted, tableSize) <==> InTable(dontCares, tableSize) by {
      if InTable(dontCares, tableSize) {
        forall i | 0 <= i < |sorted| ensures 0 <= sorted[i] < tableSize {
          assert sorted[i] in dontCares;
        }
      }
      if InTable(sorted, tableSize) {
        forall i | 0 <= i < |dontCares| ensures 0 <= dontCares[i] < tableSize {
          assert dontCares[i] in sorted;
        }
      }
    }
    assert Disjoint(indexes, sorted) <==> Disjoint(indexes, dontCares) by {
      if !Disjoint(indexes, dontCares) {
        var i, j :| 0 <= i < |indexes| && 0 <= j < |dontCares| && indexes[i] == dontCares[j];
        assert dontCares[j] in sorted;
      }
      if !Disjoint(indexes, sorted) {
        var i, j :| 0 <= i < |indexes| && 0 <= j < |sorted| && indexes[i] == sorted[j];
        assert sorted[j] in dontCares;
      }
    }
  }

  class IndexedBF {
    const name: string
    /** Clones of the caller's variables. */
    const domain: seq<BooleanVariable>
    const traversalHelper: BFGrandUnifier

    /** The helper was built over as many variables, from arguments the precondition check accepts. */
    ghost predicate Valid()
      reads this, traversalHelper, traversalHelper.dontCareIndexes
    {
      traversalHelper.Valid() &&
      |traversalHelper.domain| == |domain| &&
      Acceptable(traversalHelper.tableSize, traversalHelper.givenIndexes, traversalHelper.givenDontCares)
    }

    /** Stores what `Create` has computed. */
    constructor (name: string, domain: seq<BooleanVariable>, traversalHelper: BFGrandUnifier)
      ensures this.name == name && this.domain == domain && this.traversalHelper == traversalHelper
    {
      this.name := name;
      this.domain := domain;
      this.traversalHelper := traversalHelper;
    }

    /**
     * The public constructor: clones the domain and builds the helper from the clones, which sorts
     * the caller's don't-care list; only then are the arguments checked, so the list stays sorted
     * when IllegalArgumentException is thrown.
     */
    static method Create(name: string, domain: seq<BooleanVariable>, indexesAreMinterms: bool,
                         indexes: seq<Int32>, dontCares: IntList) returns (r: Result<IndexedBF>)
      requires |domain| < TWO_31
      modifies dontCares
      ensures dontCares.items == Sort(old(dontCares.items))
      ensures r.Failure? <==> !Acceptable(JavaBitMask(|domain|), indexes, old(dontCares.items))
      ensures r.Failure? ==> r.error == IllegalArgument
      ensures r.Success? ==> fresh(r.value) && r.value.Valid() && r.value.name == name
      ensures r.Success? ==> fresh(r.value.domain) && SameVariables(r.value.domain, domain)
      ensures r.Success? ==>
        r.value.traversalHelper.indexesAreMinterms == indexesAreMinterms &&
        r.value.traversalHelper.givenIndexes == indexes &&
        r.value.traversalHelper.givenDontCares == old(dontCares.items) &&
        r.value.traversalHelper.dontCareIndexes == dontCares
    {
      ghost var given := dontCares.items;
      var copy := CopyBooleanVariableList(domain);
      var helper := new BFGrandUnifier(copy, indexes, dontCares, indexesAreMinterms);
      var accepted := Preconditions(helper.tableSize, indexes, dontCares.items);
      AcceptableSorted(helper.tableSize, indexes, given);
      if !accepted {
        return Failure(IllegalArgument);
      }
      var f := new IndexedBF(name, copy, helper);
      r := Success(f);
    }

    /** `preconditionsIndexedBF`: no index or don't-care outside the table, and none in both lists. */
    static method Preconditions(tableSize: Int32, indexes: seq<Int32>, dontCares: seq<Int32>) returns (ok: bool)
      ensures ok <==> Acceptable(tableSize, indexes, dontCares)
    {
      var outOfBounds := (elem: Int32) => elem < 0 || elem >= tableSize;
      var badIndex := Any(outOfBounds, indexes);
      if badIndex {
        return false;
      }
      var badDontCare := Any(outOfBounds, dontCares);
      if badDontCare {
        return false;
      }
      if !Disjoint(indexes, dontCares) {
        return false;
      }
      return true;
    }

    predicate HasMinterm(index: int)
      reads this, traversalHelper
    {
      traversalHelper.HasMinterm(index)
    }

    predicate HasMaxterm(index: int)
      reads this, traversalHelper
    {
      traversalHelper.HasMaxterm(index)
    }

    predicate HasDontCare(index: int)
      reads this, traversalHelper, traversalHelper.dontCareIndexes
    {
      traversalHelper.HasDontCare(index)
    }

    /** `mintermIterable`: the helper's minterm list, ascending. */
    function Minterms(): (r: seq<Int32>)
      requires Valid()
      reads this, traversalHelper, traversalHelper.dontCareIndexes
      ensures Sorted(r)
      ensures forall k :: k in r <==> HasMinterm(k)
    {
      traversalHelper.mintermIndexes
    }

    /** `maxtermIterable`: the helper's maxterm list, ascending. */
    function Maxterms(): (r: seq<Int32>)
      requires Valid()
      reads this, traversalHelper, traversalHelper.dontCareIndexes
      ensures Sorted(r)
      ensures forall k :: k in r <==> HasMaxterm(k)
    {
      traversalHelper.maxtermIndexes
    }

    /** `dontcareIterable`: the caller's don't-care list, ascending. */
    function DontCares(): (r: seq<Int32>)
      requires Valid()
      reads this, traversalHelper, traversalHelper.dontCareIndexes
      ensures Sorted(r)
      ensures forall k :: k in r <==> HasDontCare(k)
    {
      traversalHelper.dontCareIndexes.items
    }

    /**
     * A function that was constructed puts every row of its table in exactly one of the three
     * lists and no other number in any; its given indexes are its minterms in minterm mode and
     * its maxterms otherwise.
     */
    lemma ExactlyOne(k: Int32)
      requires Valid()
      ensures 0 <= k < traversalHelper.tableSize ==> ExactlyOneOf(HasMinterm(k), HasMaxterm(k), HasDontCare(k))
      ensures !(0 <= k < traversalHelper.tableSize) ==> !HasMinterm(k) && !HasMaxterm(k) && !HasDontCare(k)
      ensures (if traversalHelper.indexesAreMinterms then HasMinterm(k) else HasMaxterm(k)) <==>
        k in traversalHelper.givenIndexes
    {
      traversalHelper.ExactlyOne(k);
    }

    /** `getValue` is the helper's. */
    method GetValue() returns (v: Result<BooleanValue>)
      ensures traversalHelper.dontCareIndexes.items == [] ==> v.Success?
      ensures traversalHelper.dontCareIndexes.items == [] && |traversalHelper.domain| <= 31 ==>
        v == Success(NoDontCareValue(traversalHelper.indexesAreMinterms, traversalHelper.mintermIndexes,
          traversalHelper.maxtermIndexes, [], Pack(TruthBits(DomainValues(traversalHelper.domain)))))
      ensures traversalHelper.dontCareIndexes.items != [] ==>
        v == WithDontCareValue(traversalHelper.indexesAreMinterms, traversalHelper.domain,
          traversalHelper.mintermIndexes)
    {
      v := traversalHelper.GetValue();
    }
  }
}
