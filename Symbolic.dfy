/**
 * The symbolic engine of Petrick's method: symbols (aliases of implicants), products and sums.
 * `evaluate` multiplies a product of sums out into a sum of products, dropping absorbed products.
 */
module Symbolic {
  import opened Wrappers
  import opened Text

  /**
   * A `SymbolicExpression`: a `Symbol`, a `SymbolicConjunction` or a `SymbolicDisjunction`. The
   * operations copy their operand lists on construction, so they are values here.
   */
  datatype Expr = Symbol(value: string) | Conjunction(operands: seq<Expr>) | Disjunction(operands: seq<Expr>)

  /** `getOperands`: a symbol's list holds just the symbol; an operation's list is its operands. */
  function Ops(e: Expr): (r: seq<Expr>)
    ensures |r| >= 1 || (!e.Symbol? && e.operands == [])
    ensures forall o :: o in r ==> o == e || o < e
  {
    if e.Symbol? then [e] else e.operands
  }

  /** What every constructed expression satisfies: no operation has an empty operand list. */
  predicate WellFormed(e: Expr) {
    match e
    case Symbol(_) => true
    case Conjunction(ops) => |ops| > 0 && forall o :: o in ops ==> WellFormed(o)
    case Disjunction(ops) => |ops| > 0 && forall o :: o in ops ==> WellFormed(o)
  }

  /** A well-formed expression has a non-empty list of well-formed operands. */
  lemma OpsOfWellFormed(e: Expr)
    requires WellFormed(e)
    ensures Ops(e) != [] && forall o :: o in Ops(e) ==> WellFormed(o)
  {
  }

  /** `new SymbolicConjunction(operands)`: an empty list is refused with IllegalArgumentException. */
  function NewConjunction(operands: seq<Expr>): (r: Result<Expr>)
    ensures r.Failure? <==> operands == []
    ensures r.Failure? ==> r.error == IllegalArgument
    ensures r.Success? ==> r.value.Conjunction? && Ops(r.value) == operands
    ensures r.Success? && (forall o :: o in operands ==> WellFormed(o)) ==> WellFormed(r.value)
  {
    if operands == [] then Failure(IllegalArgument) else Success(Conjunction(operands))
  }

  /** `new SymbolicDisjunction(operands)`: an empty list is refused with IllegalArgumentException. */
  function NewDisjunction(operands: seq<Expr>): (r: Result<Expr>)
    ensures r.Failure? <==> operands == []
    ensures r.Failure? ==> r.error == IllegalArgument
    ensures r.Success? ==> r.value.Disjunction? && Ops(r.value) == operands
    ensures r.Success? && (forall o :: o in operands ==> WellFormed(o)) ==> WellFormed(r.value)
  {
    if operands == [] then Failure(IllegalArgument) else Success(Disjunction(operands))
  }

  // ---------------------------------------------------------------- equality

  /**
   * `equals`: the same class, and then equal values (symbols) or operand lists equal element by
   * element with `equals` (operations).
   */
  predicate Equals(a: Expr, b: Expr) {
    match a
    case Symbol(v) => b.Symbol? && v == b.value
    case Conjunction(ops) =>
      b.Conjunction? && |ops| == |b.operands| && forall i :: 0 <= i < |ops| ==> Equals(ops[i], b.operands[i])
    case Disjunction(ops) =>
      b.Disjunction? && |ops| == |b.operands| && forall i :: 0 <= i < |ops| ==> Equals(ops[i], b.operands[i])
  }

  /** `equals` is structural equality, so `containsAll` and list equality are value membership. */
  lemma {:induction false} EqualsIsEquality(a: Expr, b: Expr)
    ensures Equals(a, b) <==> a == b
  {
    match a
    case Symbol(_) =>
    case Conjunction(ops) =>
      if b.Conjunction? && |ops| == |b.operands| {
        forall i | 0 <= i < |ops| {
          EqualsIsEquality(ops[i], b.operands[i]);
        }
      }
    case Disjunction(ops) =>
      if b.Disjunction? && |ops| == |b.operands| {
        forall i | 0 <= i < |ops| {
          EqualsIsEquality(ops[i], b.operands[i]);
        }
      }
  }

  // ---------------------------------------------------------------- meaning

  /** The truth value of an expression when each symbol has the value `env` gives its name. */
  predicate Holds(e: Expr, env: string -> bool) {
    match e
    case Symbol(v) => env(v)
    case Conjunction(ops) => forall o :: o in ops ==> Holds(o, env)
    case Disjunction(ops) => exists o :: o in ops && Holds(o, env)
  }

  /** A symbol or a product holds exactly when all of its operand list holds. */
  lemma ProductHolds(e: Expr, env: string -> bool)
    requires !e.Disjunction?
    ensures Holds(e, env) <==> forall o :: o in Ops(e) ==> Holds(o, env)
  {
  }

  /** `fst.getOperands()` contains every element of `snd.getOperands()`. */
  predicate ContainsAll(fst: Expr, snd: Expr) {
    forall o :: o in Ops(snd) ==> o in Ops(fst)
  }

  /** A symbol or a product that contains all operands of another such expression implies it. */
  lemma ContainsAllImplies(x: Expr, y: Expr, env: string -> bool)
    requires !x.Disjunction? && !y.Disjunction? && ContainsAll(x, y) && Holds(x, env)
    ensures Holds(y, env)
  {
    ProductHolds(x, env);
    ProductHolds(y, env);
  }

  // ---------------------------------------------------------------- SymbolicConjunction.simplify

  /** One turn of `simplify`'s loop: an operand's list is appended unless all of it is already there. */
  function AddOperands(res: seq<Expr>, fst: Expr): seq<Expr> {
    if forall o :: o in Ops(fst) ==> o in res then res else res + Ops(fst)
  }

  /** The list `simplify` builds from the operands, left to right. */
  function Flatten(ops: seq<Expr>): seq<Expr>
    decreases |ops|
  {
    if ops == [] then [] else AddOperands(Flatten(ops[..|ops| - 1]), ops[|ops| - 1])
  }

  /** The flattened list holds exactly the elements of the operands' operand lists. */
  lemma {:induction false} FlattenMembers(ops: seq<Expr>)
    ensures forall x :: x in Flatten(ops) <==> exists o :: o in ops && x in Ops(o)
    decreases |ops|
  {
    if ops != [] {
      var init := ops[..|ops| - 1];
      FlattenMembers(init);
      assert ops == init + [ops[|ops| - 1]];
    }
  }

  /** Well-formed operands give a non-empty flattened list, so `simplify`'s constructor call succeeds. */
  lemma FlattenNonEmpty(ops: seq<Expr>)
    requires ops != [] && forall o :: o in ops ==> WellFormed(o)
    ensures Flatten(ops) != []
    ensures forall x :: x in Flatten(ops) ==> WellFormed(x)
  {
    FlattenMembers(ops);
    var first := ops[0];
    assert first in ops;
    OpsOfWellFormed(first);
    assert Ops(first)[0] in Flatten(ops);
    forall x | x in Flatten(ops) ensures WellFormed(x) {
      var o :| o in ops && x in Ops(o);
      OpsOfWellFormed(o);
    }
  }

  /** Flattening a product of symbols and products does not change its value. */
  lemma FlattenHolds(ops: seq<Expr>, env: string -> bool)
    requires forall o :: o in ops ==> !o.Disjunction?
    ensures Holds(Conjunction(Flatten(ops)), env) <==> Holds(Conjunction(ops), env)
  {
    FlattenMembers(ops);
    if Holds(Conjunction(ops), env) {
      forall x | x in Flatten(ops) ensures Holds(x, env) {
        var o :| o in ops && x in Ops(o);
        ProductHolds(o, env);
      }
    }
    if Holds(Conjunction(Flatten(ops)), env) {
      forall o | o in ops ensures Holds(o, env) {
        ProductHolds(o, env);
      }
    }
  }

  /** When the result holds only symbols, simplifying it again keeps the same set of operands. */
  lemma FlattenAgain(ops: seq<Expr>)
    requires forall o, x :: o in ops && x in Ops(o) ==> x.Symbol?
    ensures forall x :: x in Flatten(Flatten(ops)) <==> x in Flatten(ops)
  {
    FlattenMembers(ops);
    FlattenMembers(Flatten(ops));
  }

  /** `SymbolicConjunction.simplify`: the loop over the operands with `containsAll` and `addAll`. */
  method SimplifyConjunction(c: Expr) returns (r: Expr)
    requires c.Conjunction? && WellFormed(c)
    ensures r == Conjunction(Flatten(c.operands)) && WellFormed(r)
  {
    var operands := c.operands;
    var res: seq<Expr> := [];
    for i := 0 to |operands|
      invariant res == Flatten(operands[..i])
    {
      var fst := operands[i];
      var fstOps := Ops(fst);
      if !(forall o :: o in fstOps ==> o in res) {
        res := res + fstOps;
      }
      assert operands[..i + 1][..i] == operands[..i];
    }
    assert operands[..|operands|] == operands;
    FlattenNonEmpty(operands);
    r := Conjunction(res);
  }

  // ---------------------------------------------------------------- SymbolicDisjunction.simplify

  /**
   * The test of `removeIrrelevant`'s inner loop: `fst` is dropped for `snd` when one of them is a
   * product and `fst`'s operand list contains all of `snd`'s.
   */
  predicate Absorbs(fst: Expr, snd: Expr) {
    (snd.Conjunction? || fst.Conjunction?) && ContainsAll(fst, snd)
  }

  /** The element at `i` meets some element at another position of the current list. */
  predicate Absorbed(list: seq<Expr>, i: nat)
    requires i < |list|
  {
    exists j :: 0 <= j < |list| && j != i && Absorbs(list[i], list[j])
  }

  /**
   * The outer loop of `removeIrrelevant` from position `i` on: the element there is removed if it
   * is absorbed by another element still in the list, and the scan goes on with what follows.
   */
  function Prune(list: seq<Expr>, i: nat): seq<Expr>
    requires i <= |list|
    decreases |list|, |list| - i
  {
    if i == |list| then list
    else if Absorbed(list, i) then Prune(list[..i] + list[i + 1..], i)
    else Prune(list, i + 1)
  }

  /** `removeIrrelevant` on a whole list. */
  function RemoveIrrelevantSpec(list: seq<Expr>): seq<Expr> {
    Prune(list, 0)
  }

  /** Pruning keeps a subsequence of the list, in original order. */
  lemma {:induction false} PruneSubsequence(list: seq<Expr>, i: nat) returns (idx: seq<nat>)
    requires i <= |list|
    ensures |idx| == |Prune(list, i)|
    ensures forall k :: 0 <= k < |idx| ==> idx[k] < |list| && Prune(list, i)[k] == list[idx[k]]
    ensures forall k, l :: 0 <= k < l < |idx| ==> idx[k] < idx[l]
    decreases |list|, |list| - i
  {
    if i == |list| {
      idx := seq(|list|, k requires 0 <= k < |list| => k);
    } else if Absorbed(list, i) {
      var shorter := list[..i] + list[i + 1..];
      var inner := PruneSubsequence(shorter, i);
      idx := seq(|inner|, k requires 0 <= k < |inner| => if inner[k] < i then inner[k] else inner[k] + 1);
    } else {
      idx := PruneSubsequence(list, i + 1);
    }
  }

  /** Every kept element is an element of the list. */
  lemma PruneMembers(list: seq<Expr>, i: nat)
    requires i <= |list|
    ensures forall y :: y in Prune(list, i) ==> y in list
  {
    var idx := PruneSubsequence(list, i);
    forall y | y in Prune(list, i) ensures y in list {
      var k :| 0 <= k < |Prune(list, i)| && Prune(list, i)[k] == y;
      assert list[idx[k]] == y;
    }
  }

  /** An element is only removed while another remains, so a non-empty list stays non-empty. */
  lemma {:induction false} PruneNonEmpty(list: seq<Expr>, i: nat)
    requires i <= |list| && list != []
    ensures Prune(list, i) != []
    decreases |list|, |list| - i
  {
    if i < |list| {
      if Absorbed(list, i) {
        var j :| 0 <= j < |list| && j != i && Absorbs(list[i], list[j]);
        PruneNonEmpty(list[..i] + list[i + 1..], i);
      } else {
        PruneNonEmpty(list, i + 1);
      }
    }
  }

  /** No element of the list absorbs an element at another position. */
  predicate Antichain(list: seq<Expr>) {
    forall p, q :: 0 <= p < |list| && 0 <= q < |list| && p != q ==> !Absorbs(list[p], list[q])
  }

  /**
   * No two kept elements at different positions absorb one another: when the earlier one was
   * examined the later one was there, and the list only shrinks afterwards.
   */
  lemma {:induction false} PruneAntichain(list: seq<Expr>, i: nat)
    requires i <= |list|
    requires forall p, q :: 0 <= p < i && 0 <= q < |list| && p != q ==> !Absorbs(list[p], list[q])
    ensures Antichain(Prune(list, i))
    decreases |list|, |list| - i
  {
    if i < |list| {
      if Absorbed(list, i) {
        var shorter := list[..i] + list[i + 1..];
        forall p, q | 0 <= p < i && 0 <= q < |shorter| && p != q
          ensures !Absorbs(shorter[p], shorter[q])
        {
          assert shorter[p] == list[p];
          if q < i {
            assert shorter[q] == list[q];
          } else {
            assert shorter[q] == list[q + 1];
          }
        }
        PruneAntichain(shorter, i);
        assert Prune(list, i) == Prune(shorter, i);
      } else {
        assert forall q :: 0 <= q < |list| && q != i ==> !Absorbs(list[i], list[q]);
        assert forall p, q :: 0 <= p < i + 1 && 0 <= q < |list| && p != q ==> !Absorbs(list[p], list[q]);
        PruneAntichain(list, i + 1);
        assert Prune(list, i) == Prune(list, i + 1);
      }
    }
  }

  /** After `removeIrrelevant`, no remaining operand absorbs another. */
  lemma RemoveIrrelevantAntichain(list: seq<Expr>)
    ensures Antichain(RemoveIrrelevantSpec(list))
  {
    PruneAntichain(list, 0);
  }

  /**
   * Removing an element that contains all operands of another element keeps every element of
   * the list covered by some element of `r` when the shorter list is.
   */
  lemma WitnessAfterRemoval(list: seq<Expr>, i: nat, j: nat, shorter: seq<Expr>, r: seq<Expr>)
    requires i < |list| && j < |list| && j != i && ContainsAll(list[i], list[j])
    requires shorter == list[..i] + list[i + 1..]
    requires forall x :: x in shorter ==> exists y :: y in r && ContainsAll(x, y)
    ensures forall x :: x in list ==> exists y :: y in r && ContainsAll(x, y)
  {
    forall x | x in list ensures exists y :: y in r && ContainsAll(x, y) {
      var k :| 0 <= k < |list| && list[k] == x;
      var z := list[j];
      if k < i {
        assert shorter[k] == x;
        z := x;
      } else if k > i {
        assert shorter[k - 1] == x;
        z := x;
      } else if j < i {
        assert shorter[j] == z;
      } else {
        assert shorter[j - 1] == z;
      }
      assert z in shorter && ContainsAll(x, z);
      var y :| y in r && ContainsAll(z, y);
      assert ContainsAll(x, y);
    }
  }

  /**
   * Every element of the list contains all operands of some kept element: a removed element was
   * absorbed by one still present, and `containsAll` is transitive.
   */
  lemma {:induction false} PruneWitness(list: seq<Expr>, i: nat)
    requires i <= |list|
    ensures forall x :: x in list ==> exists y :: y in Prune(list, i) && ContainsAll(x, y)
    decreases |list|, |list| - i
  {
    if i == |list| {
      forall x | x in list ensures exists y :: y in Prune(list, i) && ContainsAll(x, y) {
        assert x in Prune(list, i) && ContainsAll(x, x);
      }
    } else if Absorbed(list, i) {
      var shorter := list[..i] + list[i + 1..];
      PruneWitness(shorter, i);
      assert Prune(list, i) == Prune(shorter, i);
      var j :| 0 <= j < |list| && j != i && Absorbs(list[i], list[j]);
      WitnessAfterRemoval(list, i, j, shorter, Prune(shorter, i));
    } else {
      PruneWitness(list, i + 1);
    }
  }

  /** Pruning a sum of symbols and products does not change its value: absorption. */
  lemma PruneHolds(list: seq<Expr>, env: string -> bool)
    requires forall x :: x in list ==> !x.Disjunction?
    ensures Holds(Disjunction(RemoveIrrelevantSpec(list)), env) <==> Holds(Disjunction(list), env)
  {
    PruneMembers(list, 0);
    PruneWitness(list, 0);
    if Holds(Disjunction(list), env) {
      var x :| x in list && Holds(x, env);
      var y :| y in Prune(list, 0) && ContainsAll(x, y);
      ContainsAllImplies(x, y, env);
    }
  }

  /** `removeIrrelevant`'s inner loop: whether some other position holds an element `rest[i]` absorbs. */
  method AbsorbedAt(rest: seq<Expr>, i: nat) returns (removed: bool)
    requires i < |rest|
    ensures removed <==> Absorbed(rest, i)
  {
    var fst := rest[i];
    removed := false;
    var j := 0;
    while j < |rest|
      invariant 0 <= j <= |rest|
      invariant !removed ==> forall j' :: 0 <= j' < j && j' != i ==> !Absorbs(fst, rest[j'])
      invariant removed ==> Absorbed(rest, i)
      decreases |rest| - j, if removed then 0 else 1
    {
      var snd := rest[j];
      if j == i {
        j := j + 1;
        continue;
      }
      if snd.Conjunction? || fst.Conjunction? {
        if forall o :: o in Ops(snd) ==> o in Ops(fst) {
          removed := true;
          break;
        }
      }
      j := j + 1;
    }
  }

  /**
   * `removeIrrelevant`: walks the list with an iterator, removing the current element when it
   * absorbs another one; an element is only compared with other positions (the test `fst == snd`
   * is on object identity).
   */
  method RemoveIrrelevant(rest: seq<Expr>) returns (r: seq<Expr>)
    ensures r == RemoveIrrelevantSpec(rest)
  {
    r := rest;
    var i := 0;
    while i < |r|
      invariant i <= |r|
      invariant Prune(r, i) == Prune(rest, 0)
      decreases |r|, |r| - i
    {
      var removed := AbsorbedAt(r, i);
      if removed {
        r := r[..i] + r[i + 1..];
      } else {
        i := i + 1;
      }
    }
  }

  /**
   * A `SymbolicDisjunction` object: `simplify` prunes the object's own operand list in place
   * and returns a new disjunction over the pruned list.
   */
  class SymbolicDisjunction {
    var operands: seq<Expr>

    constructor (operands: seq<Expr>)
      ensures this.operands == operands
    {
      this.operands := operands;
    }

    /** The public constructor: refuses an empty list with IllegalArgumentException; copies the list. */
    static method Create(operands: seq<Expr>) returns (r: Result<SymbolicDisjunction>)
      ensures r.Failure? <==> operands == []
      ensures r.Failure? ==> r.error == IllegalArgument
      ensures r.Success? ==> fresh(r.value) && r.value.operands == operands
    {
      if operands == [] {
        return Failure(IllegalArgument);
      }
      var d := new SymbolicDisjunction(operands);
      r := Success(d);
    }

    /** `evaluate`: the disjunction itself. */
    function Evaluate(): (r: Expr)
      reads this
      ensures r.Disjunction? && Ops(r) == operands
    {
      Disjunction(operands)
    }

    /**
     * `simplify`: the receiver loses its absorbed operands; the new disjunction holds the same
     * list, which is a non-empty subsequence of the old one and never fails to be built.
     */
    method Simplify() returns (r: Expr)
      requires operands != []
      modifies this
      ensures operands == RemoveIrrelevantSpec(old(operands)) && operands != []
      ensures r == Disjunction(operands)
    {
      operands := RemoveIrrelevant(operands);
      PruneNonEmpty(old(operands), 0);
      r := Disjunction(operands);
    }
  }

  // ---------------------------------------------------------------- SymbolicConjunction.distribute

  /** The products `distribute` forms for one operand of the accumulated sum: it with each next operand. */
  function Row(fst: Expr, ops2: seq<Expr>): seq<Expr> {
    seq(|ops2|, k requires 0 <= k < |ops2| => Conjunction(Flatten([fst, ops2[k]])))
  }

  /** The products of `ops1` with `ops2`, row by row, as the two loops add them. */
  function Products(ops1: seq<Expr>, ops2: seq<Expr>): seq<Expr>
    decreases |ops1|
  {
    if ops1 == [] then [] else Products(ops1[..|ops1| - 1], ops2) + Row(ops1[|ops1| - 1], ops2)
  }

  /** One step of `distribute`: the accumulated sum times the next clause, absorbed products removed. */
  function Multiply(start: Expr, clause: Expr): Expr {
    Disjunction(RemoveIrrelevantSpec(Products(Ops(start), Ops(clause))))
  }

  /** `distribute(start, operands)`: the left fold of `Multiply` over the clauses. */
  function DistributeFrom(start: Expr, clauses: seq<Expr>): Expr
    decreases |clauses|
  {
    if clauses == [] then start else DistributeFrom(Multiply(start, clauses[0]), clauses[1..])
  }

  /** What `evaluate` answers for a conjunction with these operands. */
  function EvaluateSpec(ops: seq<Expr>): Expr
    requires ops != []
  {
    if |ops| == 1 then ops[0] else DistributeFrom(ops[0], ops[1..])
  }

  /** The products loop of `distribute`: the pairs of operands, each simplified as a product. */
  method PairProducts(ops1: seq<Expr>, ops2: seq<Expr>) returns (disjOperands: seq<Expr>)
    requires forall o :: o in ops1 ==> WellFormed(o)
    requires forall o :: o in ops2 ==> WellFormed(o)
    ensures disjOperands == Products(ops1, ops2)
  {
    disjOperands := [];
    for j := 0 to |ops1|
      invariant disjOperands == Products(ops1[..j], ops2)
    {
      var fst := ops1[j];
      ghost var before := disjOperands;
      for k := 0 to |ops2|
        invariant disjOperands == before + Row(fst, ops2[..k])
      {
        var snd := ops2[k];
        var product := SimplifyConjunction(Conjunction([fst, snd]));
        RowStep(fst, ops2, k);
        assert before + Row(fst, ops2[..k]) + [product] == before + (Row(fst, ops2[..k]) + [product]);
        disjOperands := disjOperands + [product];
      }
      assert ops2[..|ops2|] == ops2;
      ProductsStep(ops1, ops2, j);
    }
    assert ops1[..|ops1|] == ops1;
  }

  /** A row grows by the product with the next operand. */
  lemma RowStep(fst: Expr, ops2: seq<Expr>, k: nat)
    requires k < |ops2|
    ensures Row(fst, ops2[..k + 1]) == Row(fst, ops2[..k]) + [Conjunction(Flatten([fst, ops2[k]]))]
  {
  }

  /** The products grow by the row of the next operand. */
  lemma ProductsStep(ops1: seq<Expr>, ops2: seq<Expr>, j: nat)
    requires j < |ops1|
    ensures Products(ops1[..j + 1], ops2) == Products(ops1[..j], ops2) + Row(ops1[j], ops2)
  {
    var prefix := ops1[..j + 1];
    assert prefix[..|prefix| - 1] == ops1[..j] && prefix[|prefix| - 1] == ops1[j];
  }

  /** A sum `distribute` can work with: a symbol, or a well-formed sum of symbols and products. */
  predicate SumLike(e: Expr) {
    WellFormed(e) && !e.Conjunction? && forall o :: o in Ops(e) ==> !o.Disjunction?
  }

  /** The accumulated sum holds when one of its operands does. */
  predicate SumHolds(e: Expr, env: string -> bool) {
    exists o :: o in Ops(e) && Holds(o, env)
  }

  /** The products of well-formed operands are well-formed products, and there is one per pair. */
  lemma {:induction false} ProductsWellFormed(ops1: seq<Expr>, ops2: seq<Expr>)
    requires forall o :: o in ops1 ==> WellFormed(o)
    requires forall o :: o in ops2 ==> WellFormed(o)
    ensures forall x :: x in Products(ops1, ops2) ==> x.Conjunction? && WellFormed(x)
    ensures ops1 != [] && ops2 != [] ==> Products(ops1, ops2) != []
    decreases |ops1|
  {
    if ops1 != [] {
      var init := ops1[..|ops1| - 1];
      var last := ops1[|ops1| - 1];
      ProductsWellFormed(init, ops2);
      forall s | s in ops2 ensures WellFormed(Conjunction(Flatten([last, s]))) {
        FlattenNonEmpty([last, s]);
      }
      if ops2 != [] {
        assert Row(last, ops2)[0] in Products(ops1, ops2);
      }
    }
  }

  /** The products are exactly the flattened pairs of an operand of each list. */
  lemma {:induction false} ProductsMembers(ops1: seq<Expr>, ops2: seq<Expr>)
    ensures forall f, s :: f in ops1 && s in ops2 ==> Conjunction(Flatten([f, s])) in Products(ops1, ops2)
    ensures forall x :: x in Products(ops1, ops2) ==>
      exists f, s :: f in ops1 && s in ops2 && x == Conjunction(Flatten([f, s]))
    decreases |ops1|
  {
    if ops1 != [] {
      var init := ops1[..|ops1| - 1];
      var last := ops1[|ops1| - 1];
      ProductsMembers(init, ops2);
      assert ops1 == init + [last];
      forall s | s in ops2 ensures Conjunction(Flatten([last, s])) in Row(last, ops2) {
        var k :| 0 <= k < |ops2| && ops2[k] == s;
        assert Row(last, ops2)[k] == Conjunction(Flatten([last, s]));
      }
    }
  }

  /** For a symbol or a sum, "one of its operands holds" is its value. */
  lemma SumHoldsIsHolds(e: Expr, env: string -> bool)
    requires !e.Conjunction?
    ensures SumHolds(e, env) <==> Holds(e, env)
  {
    if e.Symbol? {
      assert e in Ops(e);
    }
  }

  /** A flattened pair of symbols or products holds exactly when both do. */
  lemma PairHolds(f: Expr, s: Expr, env: string -> bool)
    requires !f.Disjunction? && !s.Disjunction?
    ensures Holds(Conjunction(Flatten([f, s])), env) <==> Holds(f, env) && Holds(s, env)
  {
    FlattenHolds([f, s], env);
    assert Holds(Conjunction([f, s]), env) <==> Holds(f, env) && Holds(s, env) by {
      assert f in [f, s] && s in [f, s];
    }
  }

  /** Some pairwise product holds only when an operand of each sum holds. */
  lemma ProductsHoldOnly(ops1: seq<Expr>, ops2: seq<Expr>, env: string -> bool, x: Expr)
    requires forall o :: o in ops1 ==> !o.Disjunction?
    requires forall o :: o in ops2 ==> !o.Disjunction?
    requires x in Products(ops1, ops2) && Holds(x, env)
    ensures exists f :: f in ops1 && Holds(f, env)
    ensures exists s :: s in ops2 && Holds(s, env)
  {
    ProductsMembers(ops1, ops2);
    var f, s :| f in ops1 && s in ops2 && x == Conjunction(Flatten([f, s]));
    PairHolds(f, s, env);
  }

  /** The product of two operands that hold is one of the products, and it holds. */
  lemma ProductsHoldWhen(ops1: seq<Expr>, ops2: seq<Expr>, env: string -> bool, f: Expr, s: Expr)
    requires f in ops1 && s in ops2 && !f.Disjunction? && !s.Disjunction?
    requires Holds(f, env) && Holds(s, env)
    ensures Holds(Disjunction(Products(ops1, ops2)), env)
  {
    var x := Conjunction(Flatten([f, s]));
    PairHolds(f, s, env);
    ProductsMembers(ops1, ops2);
    assert x in Products(ops1, ops2) && Holds(x, env);
  }

  /** The sum of all pairwise products holds exactly when both sums do. */
  lemma ProductsHold(ops1: seq<Expr>, ops2: seq<Expr>, env: string -> bool)
    requires forall o :: o in ops1 ==> !o.Disjunction?
    requires forall o :: o in ops2 ==> !o.Disjunction?
    ensures Holds(Disjunction(Products(ops1, ops2)), env) <==>
      (exists f :: f in ops1 && Holds(f, env)) && (exists s :: s in ops2 && Holds(s, env))
  {
    if x :| x in Products(ops1, ops2) && Holds(x, env) {
      ProductsHoldOnly(ops1, ops2, env, x);
    }
    if f, s :| f in ops1 && Holds(f, env) && s in ops2 && Holds(s, env) {
      ProductsHoldWhen(ops1, ops2, env, f, s);
    }
  }

  /** One step of `distribute` turns two sums into a sum of products. */
  lemma MultiplyShape(start: Expr, clause: Expr)
    requires SumLike(start) && SumLike(clause)
    ensures SumLike(Multiply(start, clause))
  {
    OpsOfWellFormed(start);
    OpsOfWellFormed(clause);
    var products := Products(Ops(start), Ops(clause));
    ProductsWellFormed(Ops(start), Ops(clause));
    PruneMembers(products, 0);
    PruneNonEmpty(products, 0);
  }

  /**
   * One step of `distribute` is the distributive law: the product sum holds exactly when both
   * the accumulated sum and the clause hold, and it is again a sum of products.
   */
  lemma MultiplyMeaning(start: Expr, clause: Expr, env: string -> bool)
    requires SumLike(start) && SumLike(clause)
    ensures SumLike(Multiply(start, clause))
    ensures SumHolds(Multiply(start, clause), env) <==> SumHolds(start, env) && SumHolds(clause, env)
  {
    MultiplyShape(start, clause);
    var products := Products(Ops(start), Ops(clause));
    ProductsWellFormed(Ops(start), Ops(clause));
    PruneHolds(products, env);
    ProductsHold(Ops(start), Ops(clause), env);
  }

  /** `distribute(start, clauses)` holds exactly when the start sum and every clause hold. */
  lemma {:induction false} DistributeMeaning(start: Expr, clauses: seq<Expr>, env: string -> bool)
    requires SumLike(start) && forall c :: c in clauses ==> SumLike(c)
    ensures SumLike(DistributeFrom(start, clauses))
    ensures SumHolds(DistributeFrom(start, clauses), env) <==>
      SumHolds(start, env) && forall c :: c in clauses ==> SumHolds(c, env)
    ensures clauses != [] ==> DistributeFrom(start, clauses).Disjunction?
    decreases |clauses|
  {
    if clauses != [] {
      MultiplyMeaning(start, clauses[0], env);
      DistributeMeaning(Multiply(start, clauses[0]), clauses[1..], env);
      assert clauses == [clauses[0]] + clauses[1..];
    }
  }

  /** A product of sums: operands that are symbols or sums of symbols and products. */
  predicate ProductOfSums(ops: seq<Expr>) {
    ops != [] && forall o :: o in ops ==> SumLike(o)
  }

  /**
   * `evaluate` multiplies a product of sums out without changing its value: the result holds
   * under exactly the assignments under which the conjunction holds, and with two or more
   * operands it is a sum.
   */
  lemma EvaluateMeaning(ops: seq<Expr>, env: string -> bool)
    requires ProductOfSums(ops)
    ensures Holds(EvaluateSpec(ops), env) <==> Holds(Conjunction(ops), env)
    ensures |ops| >= 2 ==> EvaluateSpec(ops).Disjunction?
  {
    if |ops| >= 2 {
      var rest := ops[1..];
      DistributeMeaning(ops[0], rest, env);
      SumHoldsIsHolds(DistributeFrom(ops[0], rest), env);
      SumHoldsIsHolds(ops[0], env);
      forall c | c in rest ensures SumHolds(c, env) <==> Holds(c, env) {
        SumHoldsIsHolds(c, env);
      }
      assert ops == [ops[0]] + rest;
    }
  }

  /**
   * `distribute(start, operands)`: no clause left gives `[start]`; otherwise the loops form the
   * products, the sum of them is simplified, and the rest of the clauses follow.
   */
  method Distribute2(start: Expr, operands: seq<Expr>) returns (r: seq<Expr>)
    requires WellFormed(start) && forall o :: o in operands ==> WellFormed(o)
    ensures r == [DistributeFrom(start, operands)]
    decreases |operands|
  {
    if |operands| == 0 {
      return [start];
    }
    var ops1 := Ops(start);
    var ops2 := Ops(operands[0]);
    OpsOfWellFormed(start);
    assert operands[0] in operands;
    OpsOfWellFormed(operands[0]);
    var disjOperands := PairProducts(ops1, ops2);
    ProductsWellFormed(ops1, ops2);
    PruneMembers(disjOperands, 0);
    var created := new SymbolicDisjunction(disjOperands);
    var disj := created.Simplify();
    assert disj == Multiply(start, operands[0]);
    r := Distribute2(disj, operands[1..]);
  }

  /** `distribute(operands)`: one operand is returned as is; none fails with IndexOutOfBoundsException. */
  method Distribute(operands: seq<Expr>) returns (r: Result<seq<Expr>>)
    requires forall o :: o in operands ==> WellFormed(o)
    ensures operands == [] ==> r == Failure(IndexOutOfBounds)
    ensures |operands| == 1 ==> r == Success(operands)
    ensures |operands| >= 2 ==> r == Success([DistributeFrom(operands[0], operands[1..])])
  {
    if |operands| == 1 {
      return Success(operands);
    }
    if |operands| == 0 {
      return Failure(IndexOutOfBounds);
    }
    var res := Distribute2(operands[0], operands[1..]);
    r := Success(res);
  }

  /** `evaluate` on a conjunction: the one element of `distribute(operands)`. */
  method EvaluateConjunction(c: Expr) returns (r: Expr)
    requires c.Conjunction? && WellFormed(c)
    ensures r == EvaluateSpec(c.operands)
  {
    var list := Distribute(c.operands);
    r := list.value[0];
  }

  /** `evaluate`: symbols and sums are returned as they are; a product is multiplied out. */
  method Evaluate(e: Expr) returns (r: Expr)
    requires WellFormed(e)
    ensures !e.Conjunction? ==> r == e
    ensures e.Conjunction? ==> r == EvaluateSpec(e.operands)
  {
    if e.Conjunction? {
      r := EvaluateConjunction(e);
    } else {
      r := e;
    }
  }

  // ---------------------------------------------------------------- simplify and toString

  /**
   * `simplify`: a symbol is returned as it is, a product is flattened and a sum loses its
   * absorbed operands; none of it changes the value of an expression whose operands are
   * symbols or products.
   */
  method Simplify(e: Expr) returns (r: Expr)
    requires WellFormed(e)
    ensures e.Symbol? ==> r == e
    ensures e.Conjunction? ==> r == Conjunction(Flatten(e.operands))
    ensures e.Disjunction? ==> r == Disjunction(RemoveIrrelevantSpec(e.operands))
    ensures WellFormed(r)
    ensures (forall o :: o in Ops(e) ==> !o.Disjunction?) ==> forall env :: Holds(r, env) <==> Holds(e, env)
  {
    match e
    case Symbol(_) =>
      r := e;
    case Conjunction(ops) =>
      r := SimplifyConjunction(e);
      if forall o :: o in ops ==> !o.Disjunction? {
        forall env ensures Holds(r, env) <==> Holds(e, env) {
          FlattenHolds(ops, env);
        }
      }
    case Disjunction(ops) =>
      var pruned := RemoveIrrelevant(ops);
      PruneNonEmpty(ops, 0);
      PruneMembers(ops, 0);
      r := Disjunction(pruned);
      if forall o :: o in ops ==> !o.Disjunction? {
        forall env ensures Holds(r, env) <==> Holds(e, env) {
          PruneHolds(ops, env);
        }
      }
  }

  /**
   * `toString`: a symbol is its value, a product the concatenation of its operands, a sum of
   * one operand that operand, and a longer sum its operands joined by `+` in parentheses.
   */
  function Show(e: Expr): string
    requires WellFormed(e)
    decreases e, if e.Symbol? then 0 else |e.operands| + 1
  {
    match e
    case Symbol(v) => v
    case Conjunction(ops) => ShowProduct(e, |ops|)
    case Disjunction(ops) =>
      if |ops| == 1 then Show(ops[0])
      else "(" + ShowSum(e, |ops| - 1) + Show(ops[|ops| - 1]) + ")"
  }

  /** The first `n` operands, concatenated. */
  function ShowProduct(e: Expr, n: nat): string
    requires WellFormed(e) && !e.Symbol? && n <= |e.operands|
    decreases e, n
  {
    if n == 0 then "" else ShowProduct(e, n - 1) + Show(e.operands[n - 1])
  }

  /** The first `n` operands, each followed by `+`. */
  function ShowSum(e: Expr, n: nat): string
    requires WellFormed(e) && !e.Symbol? && n <= |e.operands|
    decreases e, n
  {
    if n == 0 then "" else ShowSum(e, n - 1) + Show(e.operands[n - 1]) + "+"
  }

  /** The `toString` methods with their `StringBuilder` loops. */
  method ToString(e: Expr) returns (r: string)
    requires WellFormed(e)
    ensures r == Show(e)
    decreases e
  {
    match e
    case Symbol(v) =>
      r := v;
    case Conjunction(ops) =>
      r := "";
      for k := 0 to |ops|
        invariant r == ShowProduct(e, k)
      {
        var part := ToString(ops[k]);
        r := r + part;
      }
    case Disjunction(ops) =>
      if |ops| == 1 {
        r := ToString(ops[0]);
        return;
      }
      r := "(";
      for k := 0 to |ops| - 1
        invariant r == "(" + ShowSum(e, k)
      {
        var part := ToString(ops[k]);
        r := r + (part + "+");
      }
      var last := ToString(ops[|ops| - 1]);
      r := r + last + ")";
  }

  /** Symbols whose names hold no `+`. */
  predicate PlainSymbols(ops: seq<Expr>) {
    forall o :: o in ops ==> o.Symbol? && Occurrences('+', o.value) == 0
  }

  lemma {:induction false} ShowSumSeparators(e: Expr, n: nat)
    requires WellFormed(e) && e.Disjunction? && n <= |e.operands| && PlainSymbols(e.operands)
    ensures Occurrences('+', ShowSum(e, n)) == n
  {
    if n > 0 {
      ShowSumSeparators(e, n - 1);
      assert e.operands[n - 1] in e.operands;
      OccurrencesConcat('+', ShowSum(e, n - 1), Show(e.operands[n - 1]));
      OccurrencesConcat('+', ShowSum(e, n - 1) + Show(e.operands[n - 1]), "+");
    }
  }

  /** A sum of `n` symbols is written with exactly `n - 1` separators. */
  lemma SumSeparators(ops: seq<Expr>)
    requires ops != [] && PlainSymbols(ops)
    ensures Occurrences('+', Show(Disjunction(ops))) == |ops| - 1
  {
    var e := Disjunction(ops);
    assert ops[|ops| - 1] in ops;
    if |ops| > 1 {
      ShowSumSeparators(e, |ops| - 1);
      var body := ShowSum(e, |ops| - 1);
      var last := Show(ops[|ops| - 1]);
      OccurrencesConcat('+', "(", body);
      OccurrencesConcat('+', "(" + body, last);
      OccurrencesConcat('+', "(" + body + last, ")");
    } else {
      assert ops[0] in ops;
    }
  }
}
