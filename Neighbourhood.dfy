/**
 * `BitVectorNGenerator`: the neighbourhood of an assignment, the assignments that differ from it
 * in exactly one variable, built all at once or handed out one at a time by an iterator.
 */
module Neighbourhood {
  import opened Wrappers
  import opened Counting
  import opened Sat

  /** The assignment with the bit at `k` inverted. */
  function Flip(s: seq<bool>, k: nat): (r: seq<bool>)
    requires k < |s|
    ensures |r| == |s| && r[k] == !s[k]
    ensures forall j :: 0 <= j < |s| && j != k ==> r[j] == s[j]
  {
    s[k := !s[k]]
  }

  /** The positions at which two assignments differ. */
  function Differs(a: seq<bool>, b: seq<bool>): nat -> bool {
    (k: nat) => k < |a| && k < |b| && a[k] != b[k]
  }

  /** The number of positions at which two assignments of the same size differ. */
  function Distance(a: seq<bool>, b: seq<bool>): nat
    requires |a| == |b|
  {
    Count(|a|, Differs(a, b))
  }

  /**
   * The neighbourhood is the set of assignments at distance one: flipping a bit moves exactly one
   * step away, and every assignment one step away is the flip of the bit where it differs.
   */
  lemma NeighbourhoodIsDistanceOne(s: seq<bool>, t: seq<bool>)
    requires |s| == |t|
    ensures Distance(s, t) == 1 <==> exists k :: 0 <= k < |s| && t == Flip(s, k)
  {
    var f := Differs(s, t);
    if Distance(s, t) == 1 {
      var p := CountOne(|s|, f);
      forall j | 0 <= j < |s|
        ensures t[j] == Flip(s, p)[j]
      {
        assert f(j) <==> j == p;
      }
    }
    if exists k :: 0 <= k < |s| && t == Flip(s, k) {
      var k :| 0 <= k < |s| && t == Flip(s, k);
      CountExactlyOne(|s|, f, k);
    }
  }

  /** Flipping two different bits gives two different neighbours, neither of them the assignment itself. */
  lemma FlipsDistinct(s: seq<bool>, j: nat, k: nat)
    requires j < |s| && k < |s|
    ensures Flip(s, k) != s
    ensures j != k ==> Flip(s, j) != Flip(s, k)
    ensures Flip(Flip(s, k), k) == s
  {
    assert Flip(s, k)[k] != s[k];
    if j != k {
      assert Flip(s, j)[k] != Flip(s, k)[k];
    }
  }

  class Generator {
    const assignment: BitVector
    const neighborhoodSize: nat

    /** The size fixed at construction is the size of the assignment, whose array never changes length. */
    predicate Valid() {
      neighborhoodSize == assignment.bits.Length
    }

    /** The neighbourhood has one element per variable of the assignment. */
    constructor (assignment: BitVector)
      ensures this.assignment == assignment && Valid()
    {
      this.assignment := assignment;
      neighborhoodSize := assignment.bits.Length;
    }

    /** `iterator`: a fresh iterator positioned before the first neighbour. */
    method Iterator() returns (it: NeighbourIterator)
      ensures fresh(it) && it.generator == this && it.pos == 0 && it.size == neighborhoodSize
    {
      it := new NeighbourIterator(this, neighborhoodSize);
    }

    /**
     * `createNeighbourhood`: for each position a new mutable copy of the assignment with that bit
     * flipped. Each neighbour has its own bits, and the assignment is left as it was.
     */
    method CreateNeighbourhood() returns (mvectors: array<BitVector?>)
      requires Valid()
      ensures fresh(mvectors) && mvectors.Length == assignment.bits.Length
      ensures forall i :: 0 <= i < mvectors.Length ==>
        mvectors[i] != null && fresh(mvectors[i].bits) && mvectors[i].mutable &&
        mvectors[i].bits[..] == Flip(assignment.bits[..], i)
      ensures forall i, j :: 0 <= i < j < mvectors.Length ==> mvectors[i].bits != mvectors[j].bits
    {
      mvectors := new BitVector?[assignment.bits.Length](_ => null);
      for index := 0 to neighborhoodSize
        invariant forall i :: 0 <= i < index ==>
          mvectors[i] != null && fresh(mvectors[i].bits) && mvectors[i].mutable &&
          mvectors[i].bits[..] == Flip(assignment.bits[..], i)
        invariant forall i, j :: 0 <= i < j < index ==> mvectors[i].bits != mvectors[j].bits
      {
        var mvb := assignment.Copy();
        var value := mvb.Get(index);
        var e := mvb.Set(index, if value.value == true then false else true);
        mvectors[index] := mvb;
      }
    }
  }

  /** `MutableBitVectorIterator`: walks the positions of the assignment, flipping one per step. */
  class NeighbourIterator {
    const generator: Generator
    var pos: int
    const size: int

    constructor (generator: Generator, size: int)
      ensures this.generator == generator && pos == 0 && this.size == size
    {
      this.generator := generator;
      pos := 0;
      this.size := size;
    }

    /** `hasNext`: positions remain below the size. */
    predicate HasNext()
      reads this
    {
      pos < size
    }

    /**
     * `next`: a new mutable copy of the assignment with the bit at the current position flipped,
     * advancing the position. Past the last position reading the assignment throws
     * ArrayIndexOutOfBoundsException before the position moves.
     */
    method Next() returns (r: Result<BitVector>)
      modifies this
      ensures r.Failure? <==> !(0 <= old(pos) < generator.assignment.bits.Length)
      ensures r.Failure? ==> r.error == IndexOutOfBounds && pos == old(pos)
      ensures r.Success? ==>
        fresh(r.value) && fresh(r.value.bits) && r.value.mutable &&
        r.value.bits[..] == Flip(generator.assignment.bits[..], old(pos)) && pos == old(pos) + 1
    {
      var nextNeighbor := generator.assignment.Copy();
      var value := generator.assignment.Get(pos);
      if value.Failure? {
        return Failure(IndexOutOfBounds);
      }
      var e := nextNeighbor.Set(pos, if value.value then false else true);
      pos := pos + 1;
      r := Success(nextNeighbor);
    }
  }
}
