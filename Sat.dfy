/**
 * The 3-SAT data model: bit vectors as variable assignments, clauses of signed literals, and
 * formulas as arrays of clauses, with satisfaction and the default fitness count.
 */
module Sat {
  import opened Wrappers
  import opened Bits
  import opened Counting
  import opened Text

  // ---------------------------------------------------------------- BitVector(int)

  /** How many times the first loop of `intToBoolean` halves `n` before it reaches 0. */
  function BitLength(n: int): nat
    decreases if n <= 0 then 0 else n
  {
    if n <= 0 then 0 else 1 + BitLength(n / 2)
  }

  /** A positive number has exactly `BitLength(n)` binary digits. */
  lemma {:induction false} BitLengthBounds(n: int)
    requires n > 0
    ensures Pow2(BitLength(n) - 1) <= n < Pow2(BitLength(n))
  {
    if n / 2 > 0 {
      BitLengthBounds(n / 2);
    }
  }

  /** The leading digit of a number in [2^k, 2^(k+1)) is a one. */
  lemma {:induction false} TopBit(n: nat, k: nat)
    requires Pow2(k) <= n < Pow2(k + 1)
    ensures Bit(n, k)
  {
    if k > 0 {
      TopBit(n / 2, k - 1);
    }
  }

  /** The bits of `new BitVector(n)`: no bits for n <= 0, else the binary digits, most significant first. */
  function IntBits(n: Int32): seq<bool> {
    if n <= 0 then [] else Digits(BitLength(n), n)
  }

  /**
   * `BitVector(n)` for n > 0 has as many bits as `n` has binary digits, at most 31, starts with
   * a one and reads back as `n`.
   */
  lemma IntBitsMeaning(n: Int32)
    requires n > 0
    ensures |IntBits(n)| == BitLength(n) <= 31
    ensures IntBits(n)[0]
    ensures Pack(IntBits(n)) == n
  {
    var len := BitLength(n);
    BitLengthBounds(n);
    Pow2Values();
    if len > 31 {
      Pow2Monotone(31, len - 1);
    }
    TopBit(n, len - 1);
    DigitsAt(len, n, 0);
    PackDigits(len, n);
  }

  /**
   * `intToBoolean`: counts the digits by halving, then fills the array from the top digit down,
   * testing `n & (1 << i)`; with at most 31 digits the shift is 2^i.
   */
  method IntToBoolean(n: Int32) returns (bools: array<bool>)
    ensures fresh(bools) && bools[..] == IntBits(n)
  {
    var len := 0;
    var i: int := n;
    while i > 0
      invariant len + BitLength(i) == BitLength(n)
      invariant i > 0 ==> n > 0
      decreases if i <= 0 then 0 else i
    {
      len := len + 1;
      i := i / 2;
    }
    if n > 0 {
      IntBitsMeaning(n);
    }
    bools := new bool[len];
    var k := len - 1;
    while k >= 0
      invariant -1 <= k < len
      invariant k >= 0 ==> n > 0
      invariant forall p :: 0 <= p < len - 1 - k ==> bools[p] == Digits(len, n)[p]
      decreases k + 1
    {
      BitAndPow2(n, k);
      DigitsAt(len, n, len - 1 - k);
      bools[len - 1 - k] := BitAnd(n, Pow2(k)) != 0;
      k := k - 1;
    }
  }

  // ---------------------------------------------------------------- BitVector / MutableBitVector

  /** One character per bit, '1' for a set bit and '0' otherwise. */
  function BitString(bits: seq<bool>): (r: string)
    ensures |r| == |bits|
    ensures forall i :: 0 <= i < |r| ==> (r[i] == '1' <==> bits[i]) && (r[i] == '0' <==> !bits[i])
  {
    seq(|bits|, i requires 0 <= i < |bits| => if bits[i] then '1' else '0')
  }

  /** Reading the characters back as bits. */
  function ParseBits(s: string): seq<bool> {
    seq(|s|, i requires 0 <= i < |s| => s[i] == '1')
  }

  /** The string of a bit vector determines the bits. */
  lemma BitStringRoundTrip(bits: seq<bool>)
    ensures ParseBits(BitString(bits)) == bits
  {
  }

  /**
   * A `BitVector`, or a `MutableBitVector` when `mutable` is set: `equals` compares the classes,
   * and only the subclass has `set`.
   */
  class BitVector {
    const bits: array<bool>
    const mutable: bool

    /** The varargs constructor: the array is copied. */
    constructor (bits: seq<bool>, mutable: bool)
      ensures fresh(this.bits) && this.bits[..] == bits && this.mutable == mutable
    {
      this.bits := new bool[|bits|](i requires 0 <= i < |bits| => bits[i]);
      this.mutable := mutable;
    }

    /** `BitVector(int n)` and `MutableBitVector(int n)`: the binary digits of `n`. */
    constructor FromInt(n: Int32, mutable: bool)
      ensures fresh(bits) && bits[..] == IntBits(n) && this.mutable == mutable
    {
      var bools := IntToBoolean(n);
      bits := bools;
      this.mutable := mutable;
    }

    function Size(): nat {
      bits.Length
    }

    /** `get`: the bit at `index`, ArrayIndexOutOfBoundsException outside the vector. */
    function Get(index: int): (r: Result<bool>)
      reads bits
      ensures r.Failure? <==> !(0 <= index < bits.Length)
      ensures r.Failure? ==> r.error == IndexOutOfBounds
      ensures r.Success? ==> r.value == bits[index]
    {
      if 0 <= index < bits.Length then Success(bits[index]) else Failure(IndexOutOfBounds)
    }

    /** `toString`: the bits as ones and zeros. */
    method ToString() returns (s: string)
      ensures s == BitString(bits[..])
    {
      var bitstring := new char[bits.Length];
      for i := 0 to bits.Length
        invariant forall p :: 0 <= p < i ==> bitstring[p] == if bits[p] then '1' else '0'
      {
        bitstring[i] := if bits[i] then '1' else '0';
      }
      s := bitstring[..];
    }

    /**
     * `copy`: a new `MutableBitVector` over a copy of the bits, so setting its bits leaves this
     * vector alone; it equals this vector exactly when this one is mutable too.
     */
    method Copy() returns (c: BitVector)
      ensures fresh(c) && fresh(c.bits) && c.mutable && c.bits[..] == bits[..]
      ensures c.Equals(this) <==> mutable
    {
      c := new BitVector(bits[..], true);
    }

    /** `equals`: the same class and the same bits position by position. */
    predicate Equals(other: BitVector)
      reads this, other, bits, other.bits
      ensures Equals(other) <==> mutable == other.mutable && bits[..] == other.bits[..]
    {
      this == other || (mutable == other.mutable && bits[..] == other.bits[..])
    }

    /**
     * `MutableBitVector.set`: writes one bit in place; an index outside the vector throws
     * ArrayIndexOutOfBoundsException and writes nothing. The size never changes.
     */
    method Set(index: int, value: bool) returns (e: Option<Error>)
      requires mutable
      modifies bits
      ensures e.Some? <==> !(0 <= index < bits.Length)
      ensures e.Some? ==> e.value == IndexOutOfBounds && bits[..] == old(bits[..])
      ensures e.None? ==> bits[..] == old(bits[..])[index := value]
    {
      if !(0 <= index < bits.Length) {
        return Some(IndexOutOfBounds);
      }
      bits[index] := value;
      e := None;
    }
  }

  // ---------------------------------------------------------------- Clause

  /** A clause: a disjunction of signed literals; literal `l` names variable `|l|`, negated when `l < 0`. */
  datatype Clause = Clause(literals: seq<Int32>)

  /** `getLiteral`: IllegalArgumentException outside the clause. */
  function GetLiteral(c: Clause, index: int): (r: Result<Int32>)
    ensures r.Failure? <==> !(0 <= index < |c.literals|)
    ensures r.Failure? ==> r.error == IllegalArgument
    ensures r.Success? ==> r.value == c.literals[index]
  {
    if index < 0 || index >= |c.literals| then Failure(IllegalArgument) else Success(c.literals[index])
  }

  /**
   * `Math.abs(literal) - 1` in `int` arithmetic, the position of the literal's variable:
   * `Math.abs` leaves MIN_VALUE negative, and subtracting one then wraps to MAX_VALUE.
   */
  function VariableIndex(literal: Int32): Int32 {
    Wrap(Abs(literal) as int - 1)
  }

  /** `Math.abs` on an `int`: the negation of MIN_VALUE wraps back to MIN_VALUE. */
  function Abs(literal: Int32): (r: Int32)
    ensures literal != -TWO_31 ==> r >= 0 && (r == literal || r == -literal)
  {
    if literal < 0 then Wrap(-(literal as int)) else literal
  }

  /** The literal's variable is a position of an assignment of `size` bits. */
  predicate InRange(literal: Int32, size: nat) {
    0 <= VariableIndex(literal) < size
  }

  /** A positive literal holds when its bit is set, a negative one when it is clear. */
  predicate LiteralHolds(literal: Int32, bits: seq<bool>)
    requires InRange(literal, |bits|)
  {
    (literal > 0 && bits[VariableIndex(literal)]) || (literal < 0 && !bits[VariableIndex(literal)])
  }

  /**
   * The loop of `isSatisfied` from literal `k` on: a literal whose variable is outside the
   * assignment throws, the first literal that holds stops it with `true`, the end gives `false`.
   */
  function ClauseFrom(literals: seq<Int32>, bits: seq<bool>, k: nat): Result<bool>
    requires k <= |literals|
    decreases |literals| - k
  {
    if k == |literals| then Success(false)
    else if !InRange(literals[k], |bits|) then Failure(IndexOutOfBounds)
    else if LiteralHolds(literals[k], bits) then Success(true)
    else ClauseFrom(literals, bits, k + 1)
  }

  function ClauseSatisfied(c: Clause, bits: seq<bool>): Result<bool> {
    ClauseFrom(c.literals, bits, 0)
  }

  /** Every literal before `p` has its variable in the assignment and does not hold. */
  predicate LiteralsFail(literals: seq<Int32>, bits: seq<bool>, p: nat)
    requires p <= |literals|
  {
    forall q :: 0 <= q < p ==> InRange(literals[q], |bits|) && !LiteralHolds(literals[q], bits)
  }

  /**
   * What `isSatisfied` answers is decided by the first literal that holds or lies outside the
   * assignment: `true` for the former, ArrayIndexOutOfBoundsException for the latter, and
   * `false` exactly when there is none (so always for an empty clause).
   */
  lemma {:induction false} ClauseMeaning(literals: seq<Int32>, bits: seq<bool>, k: nat)
    requires k <= |literals| && LiteralsFail(literals, bits, k)
    ensures ClauseFrom(literals, bits, k) == Success(false) <==> LiteralsFail(literals, bits, |literals|)
    ensures forall p :: k <= p < |literals| && LiteralsFail(literals, bits, p) && !InRange(literals[p], |bits|) ==>
      ClauseFrom(literals, bits, k) == Failure(IndexOutOfBounds)
    ensures forall p :: k <= p < |literals| && LiteralsFail(literals, bits, p) && InRange(literals[p], |bits|) ==>
      (LiteralHolds(literals[p], bits) ==> ClauseFrom(literals, bits, k) == Success(true))
    decreases |literals| - k
  {
    if k < |literals| && InRange(literals[k], |bits|) && !LiteralHolds(literals[k], bits) {
      ClauseMeaning(literals, bits, k + 1);
    }
    if k < |literals| && !(InRange(literals[k], |bits|) && !LiteralHolds(literals[k], bits)) {
      assert !LiteralsFail(literals, bits, |literals|);
      forall p | k <= p < |literals| && LiteralsFail(literals, bits, p)
        ensures p == k
      {
      }
    }
  }

  /** With every variable inside the assignment, a clause is satisfied exactly when one of its literals holds. */
  lemma ClauseInRange(c: Clause, bits: seq<bool>)
    requires forall l :: l in c.literals ==> InRange(l, |bits|)
    ensures ClauseSatisfied(c, bits) ==
      Success(exists i :: 0 <= i < |c.literals| && LiteralHolds(c.literals[i], bits))
  {
    ClauseMeaning(c.literals, bits, 0);
    if exists i :: 0 <= i < |c.literals| && LiteralHolds(c.literals[i], bits) {
      var p := FirstHolding(c.literals, bits);
      assert LiteralsFail(c.literals, bits, p);
    }
  }

  /** The first literal that holds, when one does and all are inside the assignment. */
  lemma {:induction false} FirstHolding(literals: seq<Int32>, bits: seq<bool>) returns (p: nat)
    requires forall l :: l in literals ==> InRange(l, |bits|)
    requires exists i :: 0 <= i < |literals| && LiteralHolds(literals[i], bits)
    ensures p < |literals| && LiteralHolds(literals[p], bits)
    ensures forall q :: 0 <= q < p ==> !LiteralHolds(literals[q], bits)
  {
    var last := |literals| - 1;
    if LiteralHolds(literals[0], bits) {
      p := 0;
    } else {
      assert literals[1..] == literals[1..];
      var i :| 0 <= i < |literals| && LiteralHolds(literals[i], bits);
      assert literals[1..][i - 1] == literals[i];
      var rest := FirstHolding(literals[1..], bits);
      p := rest + 1;
      forall q | 0 <= q < p ensures !LiteralHolds(literals[q], bits) {
        if q > 0 {
          assert literals[q] == literals[1..][q - 1];
        }
      }
    }
  }

  /** `Clause.isSatisfied`: the loop over the literals, reading the assignment with `get`. */
  method ClauseIsSatisfied(c: Clause, assignment: BitVector) returns (r: Result<bool>)
    ensures r == ClauseSatisfied(c, assignment.bits[..])
  {
    var satisfied := false;
    for k := 0 to |c.literals|
      invariant !satisfied
      invariant ClauseFrom(c.literals, assignment.bits[..], k) == ClauseFrom(c.literals, assignment.bits[..], 0)
    {
      var literal := c.literals[k];
      var val := assignment.Get(VariableIndex(literal));
      if val.Failure? {
        return Failure(IndexOutOfBounds);
      }
      satisfied := (literal > 0 && val.value == true) || (literal < 0 && val.value == false);
      if satisfied {
        return Success(true);
      }
    }
    r := Success(satisfied);
  }

  /** `Clause.equals`: the literal arrays are equal element by element. */
  predicate ClauseEquals(c: Clause, other: Clause)
    ensures ClauseEquals(c, other) <==>
      |c.literals| == |other.literals| && forall i :: 0 <= i < |c.literals| ==> c.literals[i] == other.literals[i]
  {
    c.literals == other.literals
  }

  /** One literal as `toString` writes it: a minus for a negative literal, then `x` and `Math.abs(l)`. */
  function LiteralString(literal: Int32): string {
    (if literal < 0 then "-" else "") + "x" + Decimal(Abs(literal))
  }

  /** The first `n` literals, joined by `+`. */
  function ClauseStringUpTo(literals: seq<Int32>, n: nat): string
    requires n <= |literals|
  {
    if n == 0 then ""
    else ClauseStringUpTo(literals, n - 1) + LiteralString(literals[n - 1]) + (if n < |literals| then "+" else "")
  }

  function ClauseString(c: Clause): string {
    ClauseStringUpTo(c.literals, |c.literals|)
  }

  /** The text `Clause.toString` appends for one literal: its sign, then `x` and its absolute value. */
  method AppendLiteral(literal: Int32) returns (part: string)
    ensures part == LiteralString(literal)
  {
    part := "";
    if literal < 0 {
      part := "-";
    }
    part := part + "x" + Decimal(Abs(literal));
  }

  /** One more literal of the clause string, followed by its separator. */
  lemma ClauseStringNext(literals: seq<Int32>, i: nat, s: string, part: string, sep: string)
    requires i < |literals| && s == ClauseStringUpTo(literals, i) && part == LiteralString(literals[i])
    requires sep == if i < |literals| - 1 then "+" else ""
    ensures ClauseStringUpTo(literals, i + 1) == s + part + sep
    ensures sep == "" ==> s + part + sep == s + part
  {
  }

  /** `Clause.toString`: the literal loop with its separator test. */
  method ClauseToString(c: Clause) returns (s: string)
    ensures s == ClauseString(c)
  {
    var literals := c.literals;
    s := "";
    for i := 0 to |literals|
      invariant s == ClauseStringUpTo(literals, i)
    {
      var part := AppendLiteral(literals[i]);
      ghost var sep: string := if i < |literals| - 1 then "+" else "";
      ClauseStringNext(literals, i, s, part, sep);
      s := s + part;
      if i < |literals| - 1 {
        s := s + "+";
      }
    }
  }

  lemma LiteralStringWithout(c: char, literal: Int32)
    requires c != '-' && c != 'x' && !('0' <= c <= '9')
    ensures Occurrences(c, LiteralString(literal)) == 0
  {
    var n := Abs(literal);
    DecimalWithout(c, n);
    OccurrencesConcat(c, "x", Decimal(n));
    OccurrencesConcat(c, if literal < 0 then "-" else "", "x" + Decimal(n));
  }

  /** One literal and its separator add the separator's `+`, if any, to the count. */
  lemma ClauseStringPlusStep(plus: char, literals: seq<Int32>, n: nat)
    requires Occurrences(plus, "+") == 1 && plus != '-' && plus != 'x' && !('0' <= plus <= '9')
    requires 0 < n <= |literals|
    ensures Occurrences(plus, ClauseStringUpTo(literals, n))
      == Occurrences(plus, ClauseStringUpTo(literals, n - 1)) + (if n < |literals| then 1 else 0)
  {
    LiteralStringWithout(plus, literals[n - 1]);
    var sep: string := if n < |literals| then "+" else "";
    SeparatorCount(plus, sep);
    OccurrencesJoin(plus, ClauseStringUpTo(literals, n), ClauseStringUpTo(literals, n - 1),
      LiteralString(literals[n - 1]), sep);
  }

  /** Before the last literal, every literal written so far is followed by one `+`. */
  lemma {:induction false} ClauseStringPlusesBefore(plus: char, literals: seq<Int32>, n: nat)
    requires Occurrences(plus, "+") == 1 && plus != '-' && plus != 'x' && !('0' <= plus <= '9')
    requires n < |literals|
    ensures Occurrences(plus, ClauseStringUpTo(literals, n)) == n
  {
    // The first literal is taken apart from the others, which keeps the proof cheap.
    if n == 1 {
      ClauseStringPlusesBefore(plus, literals, 0);
      ClauseStringPlusStep(plus, literals, 1);
    } else if n > 1 {
      ClauseStringPlusesBefore(plus, literals, n - 1);
      ClauseStringPlusStep(plus, literals, n);
    }
  }

  /** The whole clause string of `n > 0` literals holds `n - 1` separators: none follows the last. */
  lemma ClauseStringPluses(plus: char, literals: seq<Int32>)
    requires Occurrences(plus, "+") == 1 && plus != '-' && plus != 'x' && !('0' <= plus <= '9')
    requires literals != []
    ensures Occurrences(plus, ClauseStringUpTo(literals, |literals|)) == |literals| - 1
  {
    if |literals| == 1 {
      ClauseStringPlusStep(plus, literals, 1);
    } else {
      ClauseStringPlusesBefore(plus, literals, |literals| - 1);
      ClauseStringPlusStep(plus, literals, |literals|);
    }
  }

  /** A character that is no separator, sign, `x` or digit does not occur in a clause string. */
  lemma {:induction false} ClauseStringWithout(c: char, literals: seq<Int32>, n: nat)
    requires n <= |literals| && c != '+' && c != '-' && c != 'x' && !('0' <= c <= '9')
    ensures Occurrences(c, ClauseStringUpTo(literals, n)) == 0
  {
    if n > 0 {
      ClauseStringWithout(c, literals, n - 1);
      LiteralStringWithout(c, literals[n - 1]);
      var sep: string := if n < |literals| then "+" else "";
      SeparatorWithout(c, sep);
      OccurrencesJoin(c, ClauseStringUpTo(literals, n), ClauseStringUpTo(literals, n - 1),
        LiteralString(literals[n - 1]), sep);
    }
  }

  /** The count over one step of the clause string, the literal contributing nothing. */
  lemma OccurrencesJoin(c: char, x: string, init: string, lit: string, sep: string)
    requires x == init + lit + sep && Occurrences(c, lit) == 0
    ensures Occurrences(c, x) == Occurrences(c, init) + Occurrences(c, sep)
  {
    OccurrencesAround(c, init, lit, sep);
  }

  lemma SeparatorCount(plus: char, sep: string)
    requires Occurrences(plus, "+") == 1 && (sep == "+" || sep == "")
    ensures Occurrences(plus, sep) == |sep|
  {
    if sep == "+" {
      assert sep[1..] == "";
    }
  }

  lemma SeparatorWithout(c: char, sep: string)
    requires c != '+' && (sep == "+" || sep == "")
    ensures Occurrences(c, sep) == 0
  {
    if sep == "+" {
      assert sep[1..] == "";
    }
  }

  /** A clause of `n > 0` literals is written with `n - 1` separators and no parenthesis. */
  lemma ClauseStringSeparators(c: Clause)
    requires c.literals != []
    ensures Occurrences('+', ClauseString(c)) == |c.literals| - 1
    ensures Occurrences('(', ClauseString(c)) == 0
  {
    ClauseStringPluses('+', c.literals);
    ClauseStringWithout('(', c.literals, |c.literals|);
  }

  // ---------------------------------------------------------------- SATFormula

  /**
   * The loop of `SATFormula.isSatisfied` from clause `k` on: a throwing clause throws, the first
   * unsatisfied clause stops it with `false`, and getting through all of them gives `true`.
   */
  function FormulaFrom(clauses: seq<Clause>, bits: seq<bool>, k: nat): Result<bool>
    requires k <= |clauses|
    decreases |clauses| - k
  {
    if k == |clauses| then Success(true)
    else match ClauseSatisfied(clauses[k], bits)
      case Failure(e) => Failure(e)
      case Success(false) => Success(false)
      case Success(true) => FormulaFrom(clauses, bits, k + 1)
  }

  /** `isSatisfied` starts from `false`, so a formula without clauses is not satisfied. */
  function FormulaSatisfied(clauses: seq<Clause>, bits: seq<bool>): Result<bool> {
    if clauses == [] then Success(false) else FormulaFrom(clauses, bits, 0)
  }

  /** Every clause can be checked against the assignment without an exception. */
  predicate Evaluable(clauses: seq<Clause>, bits: seq<bool>) {
    forall c :: c in clauses ==> ClauseSatisfied(c, bits).Success?
  }

  predicate AllSatisfied(clauses: seq<Clause>, bits: seq<bool>) {
    forall c :: c in clauses ==> ClauseSatisfied(c, bits) == Success(true)
  }

  lemma {:induction false} FormulaFromMeaning(clauses: seq<Clause>, bits: seq<bool>, k: nat)
    requires k <= |clauses| && Evaluable(clauses, bits)
    ensures FormulaFrom(clauses, bits, k) == Success(forall i :: k <= i < |clauses| ==> ClauseSatisfied(clauses[i], bits) == Success(true))
    decreases |clauses| - k
  {
    if k < |clauses| {
      assert clauses[k] in clauses;
      FormulaFromMeaning(clauses, bits, k + 1);
    }
  }

  /**
   * When every clause can be checked, a formula is satisfied exactly when it has a clause and
   * all of its clauses are satisfied.
   */
  lemma FormulaMeaning(clauses: seq<Clause>, bits: seq<bool>)
    requires Evaluable(clauses, bits)
    ensures FormulaSatisfied(clauses, bits) == Success(clauses != [] && AllSatisfied(clauses, bits))
  {
    if clauses != [] {
      FormulaFromMeaning(clauses, bits, 0);
    }
  }

  /** The clauses before `p` are all checked and satisfied. */
  predicate ClausesPass(clauses: seq<Clause>, bits: seq<bool>, p: nat)
    requires p <= |clauses|
  {
    forall q :: 0 <= q < p ==> ClauseSatisfied(clauses[q], bits) == Success(true)
  }

  /** `isSatisfied` throws exactly when a clause throws before any clause is unsatisfied. */
  lemma {:induction false} FormulaFailure(clauses: seq<Clause>, bits: seq<bool>, k: nat)
    requires k <= |clauses| && ClausesPass(clauses, bits, k)
    ensures FormulaFrom(clauses, bits, k).Failure? <==>
      exists p :: k <= p < |clauses| && ClausesPass(clauses, bits, p) && ClauseSatisfied(clauses[p], bits).Failure?
    decreases |clauses| - k
  {
    if k < |clauses| {
      if ClauseSatisfied(clauses[k], bits) == Success(true) {
        FormulaFailure(clauses, bits, k + 1);
        if FormulaFrom(clauses, bits, k).Failure? {
          var p :| k + 1 <= p < |clauses| && ClausesPass(clauses, bits, p) && ClauseSatisfied(clauses[p], bits).Failure?;
        }
      } else {
        forall p | k <= p < |clauses| && ClausesPass(clauses, bits, p)
          ensures p == k
        {
        }
        if ClauseSatisfied(clauses[k], bits).Failure? {
          assert ClausesPass(clauses, bits, k);
        }
      }
    }
  }

  /** A formula over the caller's clause array, which it does not copy. */
  class SATFormula {
    const clauses: array<Clause>
    const numberOfVariables: Int32

    constructor (numberOfVariables: Int32, clauses: array<Clause>)
      ensures this.clauses == clauses && this.numberOfVariables == numberOfVariables
    {
      this.clauses := clauses;
      this.numberOfVariables := numberOfVariables;
    }

    /** `getClause`: IllegalArgumentException outside the formula. */
    function GetClause(index: int): (r: Result<Clause>)
      reads clauses
      ensures r.Failure? <==> !(0 <= index < clauses.Length)
      ensures r.Failure? ==> r.error == IllegalArgument
      ensures r.Success? ==> r.value == clauses[index]
    {
      if index < 0 || index >= clauses.Length then Failure(IllegalArgument) else Success(clauses[index])
    }

    function NumberOfClauses(): nat {
      clauses.Length
    }

    /** `isSatisfied`: checks the clauses in order, stopping at the first unsatisfied one. */
    method IsSatisfied(assignment: BitVector) returns (r: Result<bool>)
      ensures r == FormulaSatisfied(clauses[..], assignment.bits[..])
    {
      var satisfied := false;
      for k := 0 to clauses.Length
        invariant satisfied <==> k > 0
        invariant FormulaFrom(clauses[..], assignment.bits[..], k) == FormulaFrom(clauses[..], assignment.bits[..], 0)
      {
        var clause := clauses[k];
        var s := ClauseIsSatisfied(clause, assignment);
        if s.Failure? {
          return Failure(s.error);
        }
        satisfied := s.value;
        if !satisfied {
          return Success(false);
        }
      }
      r := Success(satisfied);
    }

    /** `equals`: element-wise equal clauses and the same number of variables. */
    predicate Equals(other: SATFormula)
      reads this, other, clauses, other.clauses
      ensures Equals(other) <==>
        clauses[..] == other.clauses[..] && numberOfVariables == other.numberOfVariables
    {
      this == other || (clauses[..] == other.clauses[..] && numberOfVariables == other.numberOfVariables)
    }

    /** `toString`: each clause in parentheses, one after the other. */
    method ToString() returns (s: string)
      ensures s == FormulaString(clauses[..])
    {
      s := "";
      for k := 0 to clauses.Length
        invariant s == FormulaString(clauses[..k])
      {
        var part := ClauseToString(clauses[k]);
        s := s + ("(" + part + ")");
        assert clauses[..k + 1][..k] == clauses[..k];
      }
      assert clauses[..clauses.Length] == clauses[..];
    }
  }

  function FormulaString(clauses: seq<Clause>): string {
    if clauses == [] then ""
    else FormulaString(clauses[..|clauses| - 1]) + ("(" + ClauseString(clauses[|clauses| - 1]) + ")")
  }

  /** The string of a formula opens one parenthesis per clause. */
  lemma {:induction false} FormulaStringParentheses(clauses: seq<Clause>)
    ensures Occurrences('(', FormulaString(clauses)) == |clauses|
  {
    if clauses != [] {
      var last := clauses[|clauses| - 1];
      FormulaStringParentheses(clauses[..|clauses| - 1]);
      ClauseStringWithout('(', last.literals, |last.literals|);
      OccurrencesConcat('(', "(", ClauseString(last));
      OccurrencesConcat('(', "(" + ClauseString(last), ")");
      OccurrencesConcat('(', FormulaString(clauses[..|clauses| - 1]), "(" + ClauseString(last) + ")");
    }
  }

  // ---------------------------------------------------------------- ISATAlgorithm.fitness

  /** The clauses among the first `n` that `bits` satisfies. */
  function SatisfiedAt(clauses: seq<Clause>, bits: seq<bool>): nat -> bool {
    (k: nat) => k < |clauses| && ClauseSatisfied(clauses[k], bits) == Success(true)
  }

  /** The count the fitness loop reaches over the first `n` clauses, or the first clause that throws. */
  function FitnessUpTo(clauses: seq<Clause>, bits: seq<bool>, n: nat): Result<nat>
    requires n <= |clauses|
  {
    if n == 0 then Success(0)
    else match FitnessUpTo(clauses, bits, n - 1)
      case Failure(e) => Failure(e)
      case Success(f) =>
        match ClauseSatisfied(clauses[n - 1], bits)
        case Failure(e) => Failure(e)
        case Success(b) => Success(f + if b then 1 else 0)
  }

  /** When every clause can be checked, the fitness loop over the first `n` clauses counts the satisfied ones. */
  lemma {:induction false} FitnessCount(clauses: seq<Clause>, bits: seq<bool>, n: nat)
    requires n <= |clauses| && Evaluable(clauses, bits)
    ensures FitnessUpTo(clauses, bits, n) == Success(Count(n, SatisfiedAt(clauses, bits)))
  {
    if n > 0 {
      FitnessCount(clauses, bits, n - 1);
      assert clauses[n - 1] in clauses;
    }
  }

  /**
   * When every clause can be checked, the fitness is the number of satisfied clauses: between 0
   * and the number of clauses, 0 without clauses, and all of them exactly when the formula is
   * satisfied (for a formula with clauses).
   */
  lemma FitnessMeaning(clauses: seq<Clause>, bits: seq<bool>, n: nat)
    requires n <= |clauses| && Evaluable(clauses, bits)
    ensures FitnessUpTo(clauses, bits, n) == Success(Count(n, SatisfiedAt(clauses, bits)))
    ensures Count(n, SatisfiedAt(clauses, bits)) <= n
    ensures Count(n, SatisfiedAt(clauses, bits)) == n <==>
      forall k :: 0 <= k < n ==> ClauseSatisfied(clauses[k], bits) == Success(true)
  {
    var f := SatisfiedAt(clauses, bits);
    FitnessCount(clauses, bits, n);
    CountBound(n, f);
    if Count(n, f) == n {
      CountFull(n, f);
      assert forall k :: 0 <= k < n ==> f(k);
    }
    if forall k :: 0 <= k < n ==> ClauseSatisfied(clauses[k], bits) == Success(true) {
      CountAll(n, f);
    }
  }

  /** The fitness of an assignment reaches the clause count exactly when it satisfies a formula with clauses. */
  lemma FitnessSatisfied(clauses: seq<Clause>, bits: seq<bool>)
    requires Evaluable(clauses, bits) && clauses != []
    ensures FitnessUpTo(clauses, bits, |clauses|) == Success(|clauses|) <==>
      FormulaSatisfied(clauses, bits) == Success(true)
  {
    FitnessMeaning(clauses, bits, |clauses|);
    FormulaMeaning(clauses, bits);
  }

  /** `fitness`: counts the clauses the assignment satisfies, checking every one of them. */
  method Fitness(formula: SATFormula, assignment: BitVector) returns (r: Result<nat>)
    ensures r == FitnessUpTo(formula.clauses[..], assignment.bits[..], formula.clauses.Length)
  {
    var fitness := 0;
    var formulaSize := formula.NumberOfClauses();
    for index := 0 to formulaSize
      invariant FitnessUpTo(formula.clauses[..], assignment.bits[..], index) == Success(fitness)
    {
      var clause := formula.GetClause(index);
      var satisfied := ClauseIsSatisfied(clause.value, assignment);
      if satisfied.Failure? {
        r := Failure(satisfied.error);
        FitnessFailure(formula.clauses[..], assignment.bits[..], index + 1);
        return;
      }
      if satisfied.value {
        fitness := fitness + 1;
      }
    }
    r := Success(fitness);
  }

  /** Once a prefix throws, the whole count throws the same way. */
  lemma {:induction false} FitnessFailure(clauses: seq<Clause>, bits: seq<bool>, n: nat)
    requires n <= |clauses| && FitnessUpTo(clauses, bits, n).Failure?
    ensures FitnessUpTo(clauses, bits, |clauses|) == FitnessUpTo(clauses, bits, n)
    decreases |clauses| - n
  {
    if n < |clauses| {
      FitnessFailure(clauses, bits, n + 1);
    }
  }
}
