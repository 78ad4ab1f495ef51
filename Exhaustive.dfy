/**
 * `ExhaustiveSearch`: enumerates every assignment of the formula's variables, checks each, and
 * answers with the first one that satisfies the formula.
 */
module Exhaustive {
  import opened Wrappers
  import opened Bits
  import opened Sat

  /** Every assignment in the list extended by the same last value. */
  function AppendAll(ls: seq<seq<bool>>, b: bool): (r: seq<seq<bool>>)
    ensures |r| == |ls|
    ensures forall i :: 0 <= i < |r| ==> r[i] == ls[i] + [b]
  {
    seq(|ls|, i requires 0 <= i < |ls| => ls[i] + [b])
  }

  /**
   * `booleanCombinationsH` for `n >= 1`: the assignments of `n - 1` variables extended by `true`,
   * followed by the same extended by `false`.
   */
  function CombinationsH(n: nat): seq<seq<bool>>
    requires n >= 1
  {
    if n == 1 then [[true], [false]]
    else AppendAll(CombinationsH(n - 1), true) + AppendAll(CombinationsH(n - 1), false)
  }

  /** `2^n` assignments, each of `n` variables. */
  lemma {:induction false} CombinationsSize(n: nat)
    requires n >= 1
    ensures |CombinationsH(n)| == Pow2(n)
    ensures forall i :: 0 <= i < |CombinationsH(n)| ==> |CombinationsH(n)[i]| == n
  {
    if n > 1 {
      CombinationsSize(n - 1);
    }
  }

  /** Every assignment of `n` variables is enumerated: the position at which it is. */
  lemma {:induction false} CombinationsIndex(n: nat, s: seq<bool>) returns (i: nat)
    requires n >= 1 && |s| == n
    ensures i < |CombinationsH(n)| && CombinationsH(n)[i] == s
  {
    var c := CombinationsH(n);
    if n == 1 {
      assert s == [s[0]];
      i := if s[0] then 0 else 1;
    } else {
      var h := CombinationsH(n - 1);
      var trues, falses := AppendAll(h, true), AppendAll(h, false);
      assert c == trues + falses;
      var init := s[..n - 1];
      var k := CombinationsIndex(n - 1, init);
      assert s == h[k] + [s[n - 1]];
      if s[n - 1] {
        i := k;
        assert c[i] == trues[k];
      } else {
        i := k + |h|;
        assert c[i] == falses[k];
      }
    }
  }

  /** No assignment is enumerated twice. */
  lemma {:induction false} CombinationsDistinct(n: nat)
    requires n >= 1
    ensures forall i, j :: 0 <= i < j < |CombinationsH(n)| ==> CombinationsH(n)[i] != CombinationsH(n)[j]
  {
    if n > 1 {
      CombinationsDistinct(n - 1);
      forall i, j | 0 <= i < j < |CombinationsH(n)|
        ensures CombinationsH(n)[i] != CombinationsH(n)[j]
      {
        DistinctInHalves(CombinationsH(n - 1), CombinationsH(n), i, j);
      }
    }
  }

  /**
   * The enumeration is complete and without repetition: `2^n` assignments, each of `n` variables,
   * every assignment of `n` variables among them, and no two of them equal.
   */
  lemma CombinationsMeaning(n: nat)
    requires n >= 1
    ensures |CombinationsH(n)| == Pow2(n)
    ensures forall i :: 0 <= i < |CombinationsH(n)| ==> |CombinationsH(n)[i]| == n
    ensures forall s :: |s| == n ==> s in CombinationsH(n)
    ensures forall i, j :: 0 <= i < j < |CombinationsH(n)| ==> CombinationsH(n)[i] != CombinationsH(n)[j]
  {
    CombinationsSize(n);
    CombinationsDistinct(n);
    forall s: seq<bool> | |s| == n
      ensures s in CombinationsH(n)
    {
      var i := CombinationsIndex(n, s);
    }
  }

  /** Adding `2^m` leaves the bits below `m` alone. */
  lemma {:induction false} BitBelowAdded(x: nat, m: nat, j: nat)
    requires j < m
    ensures Bit(x + Pow2(m), j) == Bit(x, j)
  {
    assert Pow2(m) == 2 * Pow2(m - 1);
    if j > 0 {
      assert (x + Pow2(m)) / 2 == x / 2 + Pow2(m - 1);
      BitBelowAdded(x / 2, m - 1, j - 1);
    }
  }

  /** The `k`-th assignment of `n > 1` variables: one of the first half extended by `true`, or of the second by `false`. */
  lemma CombinationsAt(n: nat, k: nat)
    requires n > 1 && k < Pow2(n)
    ensures |CombinationsH(n - 1)| == Pow2(n - 1)
    ensures k < Pow2(n - 1) ==> CombinationsH(n)[k] == CombinationsH(n - 1)[k] + [true]
    ensures k >= Pow2(n - 1) ==> CombinationsH(n)[k] == CombinationsH(n - 1)[k - Pow2(n - 1)] + [false]
  {
    CombinationsSize(n);
    CombinationsSize(n - 1);
  }

  /** Taking `2^m` away from a number of at least `2^m` leaves the bits below `m` alone. */
  lemma BitBelowSubtracted(x: nat, m: nat, j: nat)
    requires Pow2(m) <= x && j < m
    ensures Bit(x - Pow2(m), j) == Bit(x, j)
  {
    var y := x - Pow2(m);
    BitBelowAdded(y, m, j);
    assert y + Pow2(m) == x;
  }

  /**
   * The order of the enumeration: position `j` of the `k`-th assignment is false exactly when bit
   * `j` of `k` is set, so the enumeration starts with all true and ends with all false.
   */
  lemma {:induction false} CombinationsOrder(n: nat, k: nat, j: nat)
    requires n >= 1 && k < Pow2(n) && j < n
    ensures |CombinationsH(n)| == Pow2(n) && |CombinationsH(n)[k]| == n
    ensures CombinationsH(n)[k][j] == !Bit(k, j)
    decreases n, 1
  {
    CombinationsSize(n);
    if n > 1 {
      if k < Pow2(n - 1) {
        CombinationsOrderFirstHalf(n, k, j);
      } else {
        CombinationsOrderSecondHalf(n, k, j);
      }
    }
  }

  /** An assignment of the first half: `true` last, the rest that of `k` one level down. */
  lemma {:induction false} CombinationsOrderFirstHalf(n: nat, k: nat, j: nat)
    requires n > 1 && k < Pow2(n - 1) && j < n
    ensures |CombinationsH(n)| == Pow2(n) && |CombinationsH(n)[k]| == n
    ensures CombinationsH(n)[k][j] == !Bit(k, j)
    decreases n, 0
  {
    CombinationsSize(n);
    CombinationsAt(n, k);
    if j == n - 1 {
      BitAboveWidth(k, n - 1);
    } else {
      CombinationsOrder(n - 1, k, j);
    }
  }

  /** An assignment of the second half: `false` last, the rest that of `k - 2^(n-1)` one level down. */
  lemma {:induction false} CombinationsOrderSecondHalf(n: nat, k: nat, j: nat)
    requires n > 1 && Pow2(n - 1) <= k < Pow2(n) && j < n
    ensures |CombinationsH(n)| == Pow2(n) && |CombinationsH(n)[k]| == n
    ensures CombinationsH(n)[k][j] == !Bit(k, j)
    decreases n, 0
  {
    CombinationsSize(n);
    CombinationsAt(n, k);
    if j == n - 1 {
      TopBit(k, n - 1);
    } else {
      CombinationsOrder(n - 1, k - Pow2(n - 1), j);
      BitBelowSubtracted(k, n - 1, j);
    }
  }

  /** Two positions of the doubled list hold different assignments when the halves hold distinct ones. */
  lemma DistinctInHalves(h: seq<seq<bool>>, c: seq<seq<bool>>, i: nat, j: nat)
    requires c == AppendAll(h, true) + AppendAll(h, false)
    requires forall p, q :: 0 <= p < q < |h| ==> h[p] != h[q]
    requires i < j < |c|
    ensures c[i] != c[j]
  {
    var half := |h|;
    if i < half && j >= half {
      assert c[i][|h[i]|] != c[j][|h[j - half]|];
      if |h[i]| != |h[j - half]| {
        assert |c[i]| != |c[j]|;
      }
    } else {
      var p := if i < half then i else i - half;
      var q := if i < half then j else j - half;
      assert c[i][..|c[i]| - 1] == h[p] && c[j][..|c[j]| - 1] == h[q];
    }
  }

  /**
   * `booleanCombinationsH(n)`: the recursion never reaches its base case when `n < 1` and ends in
   * StackOverflowError.
   */
  function Combinations(n: Int32): (r: Result<seq<seq<bool>>>)
    ensures r.Failure? <==> n < 1
    ensures r.Failure? ==> r.error == StackOverflow
  {
    if n < 1 then Failure(StackOverflow) else Success(CombinationsH(n))
  }

  /** `listToPrimitiveArray`: the list's values in a new array. */
  method ListToPrimitiveArray(list: seq<bool>) returns (primitives: array<bool>)
    ensures fresh(primitives) && primitives[..] == list
  {
    primitives := new bool[|list|];
    var i := 0;
    while i < |list|
      invariant 0 <= i <= |list|
      invariant primitives[..i] == list[..i]
    {
      primitives[i] := list[i];
      i := i + 1;
      assert primitives[..i] == primitives[..i - 1] + [list[i - 1]];
    }
    assert primitives[..] == primitives[..|list|];
  }

  /** `booleanCombinations`: the enumeration as new arrays, one per assignment. */
  method BooleanCombinations(n: Int32) returns (r: Result<seq<array<bool>>>)
    ensures r.Failure? <==> Combinations(n).Failure?
    ensures r.Failure? ==> r.error == Combinations(n).error
    ensures r.Success? ==>
      |r.value| == |Combinations(n).value| &&
      forall i :: 0 <= i < |r.value| ==> fresh(r.value[i]) && r.value[i][..] == Combinations(n).value[i]
  {
    var combinations := Combinations(n);
    if combinations.Failure? {
      return Failure(combinations.error);
    }
    var lbs := combinations.value;
    var ret: seq<array<bool>> := [];
    for k := 0 to |lbs|
      invariant |ret| == k
      invariant forall i :: 0 <= i < k ==> fresh(ret[i]) && ret[i][..] == lbs[i]
    {
      var primitives := ListToPrimitiveArray(lbs[k]);
      ret := ret + [primitives];
    }
    r := Success(ret);
  }

  /**
   * The satisfying assignments among the first `n` candidates, in order, as the search loop
   * collects them, or the exception of the first candidate whose check throws.
   */
  function ModelsUpTo(clauses: seq<Clause>, candidates: seq<seq<bool>>, n: nat): Result<seq<seq<bool>>>
    requires n <= |candidates|
  {
    if n == 0 then Success([])
    else match ModelsUpTo(clauses, candidates, n - 1)
      case Failure(e) => Failure(e)
      case Success(models) =>
        match FormulaSatisfied(clauses, candidates[n - 1])
        case Failure(e) => Failure(e)
        case Success(b) => Success(models + if b then [candidates[n - 1]] else [])
  }

  /**
   * What `solve` answers for a formula over `numberOfVariables` variables: the exception of the
   * enumeration or of a check, NullPointerException when no assignment satisfies the formula
   * (the solution is built from `null`), and otherwise the first satisfying assignment.
   */
  function SolveSpec(clauses: seq<Clause>, numberOfVariables: Int32): Result<seq<bool>> {
    match Combinations(numberOfVariables)
    case Failure(e) => Failure(e)
    case Success(candidates) =>
      match ModelsUpTo(clauses, candidates, |candidates|)
      case Failure(e) => Failure(e)
      case Success(models) => if models == [] then Failure(NullPointer) else Success(models[0])
  }

  /** `solve`: checks every candidate, collects the models, and copies the first of them. */
  method Solve(formula: SATFormula) returns (r: Result<BitVector>)
    ensures r.Failure? <==> SolveSpec(formula.clauses[..], formula.numberOfVariables).Failure?
    ensures r.Failure? ==> r.error == SolveSpec(formula.clauses[..], formula.numberOfVariables).error
    ensures r.Success? ==>
      fresh(r.value) && !r.value.mutable &&
      r.value.bits[..] == SolveSpec(formula.clauses[..], formula.numberOfVariables).value
  {
    var numberOfVariables := formula.numberOfVariables;
    var combinations := BooleanCombinations(numberOfVariables);
    if combinations.Failure? {
      return Failure(combinations.error);
    }
    var candidates := Combinations(numberOfVariables).value;
    var vecs := combinations.value;
    var models: seq<seq<bool>> := [];
    for k := 0 to |vecs|
      invariant |vecs| == |candidates|
      invariant forall i :: 0 <= i < |vecs| ==> vecs[i][..] == candidates[i]
      invariant ModelsUpTo(formula.clauses[..], candidates, k) == Success(models)
    {
      var vec := vecs[k];
      ghost var before := models;
      assert vec[..] == candidates[k];
      var bv := new BitVector(vec[..], false);
      var satisfied := formula.IsSatisfied(bv);
      assert satisfied == FormulaSatisfied(formula.clauses[..], candidates[k]);
      if satisfied.Failure? {
        ModelsFailure(formula.clauses[..], candidates, k + 1);
        return Failure(satisfied.error);
      }
      assert vec[..] == candidates[k];
      if satisfied.value {
        models := models + [vec[..]];
      }
      assert models == before + if satisfied.value then [candidates[k]] else [];
    }
    if models == [] {
      return Failure(NullPointer);
    }
    var solution := new BitVector(models[0], false);
    r := Success(solution);
  }

  /** Once a candidate's check throws, the whole search throws the same way. */
  lemma {:induction false} ModelsFailure(clauses: seq<Clause>, candidates: seq<seq<bool>>, n: nat)
    requires n <= |candidates| && ModelsUpTo(clauses, candidates, n).Failure?
    ensures ModelsUpTo(clauses, candidates, |candidates|) == ModelsUpTo(clauses, candidates, n)
    decreases |candidates| - n
  {
    if n < |candidates| {
      ModelsFailure(clauses, candidates, n + 1);
    }
  }

  /**
   * When every candidate can be checked, the search collects exactly the candidates that satisfy
   * the formula, each satisfying one being collected.
   */
  lemma {:induction false} ModelsMeaning(clauses: seq<Clause>, candidates: seq<seq<bool>>, n: nat)
    requires n <= |candidates|
    requires forall s :: s in candidates ==> Evaluable(clauses, s)
    ensures ModelsUpTo(clauses, candidates, n).Success?
    ensures forall s :: s in ModelsUpTo(clauses, candidates, n).value <==>
      s in candidates[..n] && FormulaSatisfied(clauses, s) == Success(true)
  {
    if n > 0 {
      ModelsMeaning(clauses, candidates, n - 1);
      var s := candidates[n - 1];
      assert s in candidates;
      FormulaMeaning(clauses, s);
      assert candidates[..n] == candidates[..n - 1] + [s];
    }
  }

  /** Every literal of the formula names one of its first `n` variables. */
  predicate LiteralsWithin(clauses: seq<Clause>, n: nat) {
    forall c, l :: c in clauses && l in c.literals ==> InRange(l, n)
  }

  /** Assignments of `n` variables can be checked against a formula whose literals all name one of them. */
  lemma EvaluableWithin(clauses: seq<Clause>, s: seq<bool>)
    requires LiteralsWithin(clauses, |s|)
    ensures Evaluable(clauses, s)
  {
    forall c | c in clauses
      ensures ClauseSatisfied(c, s).Success?
    {
      ClauseInRange(c, s);
    }
  }

  /**
   * The first model collected is the first satisfying candidate: every candidate before it fails
   * the formula, and with no model at all every candidate fails it.
   */
  lemma {:induction false} ModelsFirst(clauses: seq<Clause>, candidates: seq<seq<bool>>, n: nat)
    requires n <= |candidates|
    requires forall s :: s in candidates ==> Evaluable(clauses, s)
    ensures ModelsUpTo(clauses, candidates, n).Success?
    ensures ModelsUpTo(clauses, candidates, n).value == [] ==>
      forall j :: 0 <= j < n ==> FormulaSatisfied(clauses, candidates[j]) != Success(true)
    ensures ModelsUpTo(clauses, candidates, n).value != [] ==>
      exists i :: 0 <= i < n && ModelsUpTo(clauses, candidates, n).value[0] == candidates[i] &&
        forall j :: 0 <= j < i ==> FormulaSatisfied(clauses, candidates[j]) != Success(true)
  {
    if n > 0 {
      ModelsFirst(clauses, candidates, n - 1);
      var prev := ModelsUpTo(clauses, candidates, n - 1).value;
      var s := candidates[n - 1];
      assert s in candidates;
      FormulaMeaning(clauses, s);
      var b := FormulaSatisfied(clauses, s).value;
      var cur := ModelsUpTo(clauses, candidates, n).value;
      assert cur == prev + if b then [s] else [];
      if prev != [] {
        var i :| 0 <= i < n - 1 && prev[0] == candidates[i] &&
          forall j :: 0 <= j < i ==> FormulaSatisfied(clauses, candidates[j]) != Success(true);
        assert cur[0] == candidates[i];
      } else if b {
        assert cur[0] == candidates[n - 1];
      } else {
        assert cur == [];
      }
    }
  }


  /**
   * For a formula over `n >= 1` variables whose literals all name one of them, the search succeeds
   * exactly when some assignment of `n` variables satisfies the formula, and then answers with one.
   */
  lemma SolveMeaning(clauses: seq<Clause>, numberOfVariables: Int32)
    requires numberOfVariables >= 1 && LiteralsWithin(clauses, numberOfVariables)
    ensures SolveSpec(clauses, numberOfVariables).Success? <==>
      exists s: seq<bool> :: |s| == numberOfVariables as int && FormulaSatisfied(clauses, s) == Success(true)
    ensures SolveSpec(clauses, numberOfVariables).Success? ==>
      |SolveSpec(clauses, numberOfVariables).value| == numberOfVariables as int &&
      FormulaSatisfied(clauses, SolveSpec(clauses, numberOfVariables).value) == Success(true)
  {
    var n: nat := numberOfVariables as int;
    var candidates := CombinationsH(n);
    CombinationsMeaning(n);
    forall s | s in candidates
      ensures Evaluable(clauses, s)
    {
      EvaluableWithin(clauses, s);
    }
    ModelsMeaning(clauses, candidates, |candidates|);
    assert candidates[..|candidates|] == candidates;
    var models := ModelsUpTo(clauses, candidates, |candidates|).value;
    if models != [] {
      assert models[0] in models;
    }
    if exists s: seq<bool> :: |s| == n && FormulaSatisfied(clauses, s) == Success(true) {
      var s: seq<bool> :| |s| == n && FormulaSatisfied(clauses, s) == Success(true);
      assert s in models;
    }
  }
  /** `solve` answers the first assignment of the enumeration that satisfies the formula. */
  lemma SolveFirst(clauses: seq<Clause>, numberOfVariables: Int32)
    requires numberOfVariables >= 1 && LiteralsWithin(clauses, numberOfVariables)
    ensures var candidates := CombinationsH(numberOfVariables as int);
      SolveSpec(clauses, numberOfVariables).Success? ==>
        exists i :: 0 <= i < |candidates| && SolveSpec(clauses, numberOfVariables).value == candidates[i] &&
          forall j :: 0 <= j < i ==> FormulaSatisfied(clauses, candidates[j]) != Success(true)
  {
    var n: nat := numberOfVariables as int;
    var candidates := CombinationsH(n);
    CombinationsMeaning(n);
    forall s | s in candidates
      ensures Evaluable(clauses, s)
    {
      EvaluableWithin(clauses, s);
    }
    ModelsFirst(clauses, candidates, |candidates|);
  }


  /** `stringArray`: the assignment as ones and zeros, as printed for every model found. */
  method StringArray(arr: seq<bool>) returns (s: string)
    ensures s == BitString(arr)
  {
    s := "";
    for i := 0 to |arr|
      invariant s == BitString(arr[..i])
    {
      s := s + (if arr[i] == true then "1" else "0");
      assert arr[..i + 1] == arr[..i] + [arr[i]];
    }
    assert arr[..|arr|] == arr;
  }
}
