/**
 * `OperatorTreeBF`: a Boolean function given by an operator tree over variables. A row of the
 * truth table is evaluated by writing its bits into the tree's own variables and asking the tree
 * for its value.
 */
module OperatorTree {
  import opened Wrappers
  import opened Values
  import opened Bits
  import opened Kleene
  import opened Variables
  import opened BooleanSources
  import opened SwissKnife
  import opened GrandUnifier

  // ---------------------------------------------------------------- evaluation under an assignment

  /** The value of a tree when each variable holds what `env` gives its name. */
  function Eval(s: Source, env: string -> BooleanValue): Result<BooleanValue>
    decreases s, 1
  {
    match s
    case Constant(v) => Success(v)
    case Variable(x) => Success(env(x.name))
    case Operator(kind, ss) =>
      if kind == BASE then Failure(UnsupportedOperation)
      else if |ss| == 0 then Failure(IndexOutOfBounds)
      else if kind == NOT then
        match EvalsUpTo(s, env, 1)
        case Failure(e) => Failure(e)
        case Success(vals) => Success(Not(vals[0]))
      else
        match EvalsUpTo(s, env, |ss|)
        case Failure(e) => Failure(e)
        case Success(vals) => Success(Combined(kind, vals))
  }

  function EvalsUpTo(s: Source, env: string -> BooleanValue, i: nat): (r: Result<seq<BooleanValue>>)
    requires s.Operator? && i <= |s.sources|
    ensures r.Success? ==> |r.value| == i
    decreases s, 0, i
  {
    if i == 0 then Success([])
    else
      match EvalsUpTo(s, env, i - 1)
      case Failure(e) => Failure(e)
      case Success(vals) =>
        match Eval(s.sources[i - 1], env)
        case Failure(e) => Failure(e)
        case Success(v) => Success(vals + [v])
  }

  /** Each variable holds the value `env` gives its name. */
  ghost predicate Holds(vars: set<BooleanVariable>, env: string -> BooleanValue)
    reads vars
  {
    forall x :: x in vars ==> x.value == env(x.name)
  }

  /** A tree whose variables hold an assignment has the value of the tree under that assignment. */
  lemma {:induction false} ValueIsEval(s: Source, env: string -> BooleanValue)
    requires Holds(VarsOf(s), env)
    ensures Value(s) == Eval(s, env)
    decreases s, 1
  {
    match s
    case Constant(_) =>
    case Variable(_) =>
    case Operator(kind, ss) =>
      if kind != BASE && |ss| > 0 {
        VarsUpToMonotone(s, 1, |ss|);
        ValuesUpToIsEvals(s, env, 1);
        ValuesUpToIsEvals(s, env, |ss|);
      }
  }

  lemma {:induction false} ValuesUpToIsEvals(s: Source, env: string -> BooleanValue, i: nat)
    requires s.Operator? && i <= |s.sources|
    requires Holds(VarsUpTo(s, i), env)
    ensures ValuesUpTo(s, i) == EvalsUpTo(s, env, i)
    decreases s, 0, i
  {
    if i > 0 {
      VarsUpToMonotone(s, i - 1, i);
      ValuesUpToIsEvals(s, env, i - 1);
      ValueIsEval(s.sources[i - 1], env);
    }
  }

  // ---------------------------------------------------------------- the assignment of a row

  /** The names the tree's variables carry. */
  function TreeNames(tree: Source): set<string> {
    Names(VarList(tree))
  }

  /** The value the first of `names` equal to `name` is given, FALSE when there is none. */
  function Lookup(names: seq<string>, bits: seq<BooleanValue>, name: string): BooleanValue
    requires |bits| <= |names|
  {
    if bits == [] then FALSE
    else if names[0] == name then bits[0]
    else Lookup(names[1..], bits[1..], name)
  }

  /** Row `k`: domain variable j named `names[j]` holds bit j of `k`, most significant first, for j below m. */
  function RowEnv(names: seq<string>, m: nat, k: Int32): string -> BooleanValue
    requires m <= |names|
  {
    (name: string) => Lookup(names, BinaryValues(m, k), name)
  }

  /**
   * Every name among the first m domain names, m being the number of names in the tree, is a
   * name of the tree; otherwise `evaluateIndex` throws.
   */
  predicate Covers(names: seq<string>, tree: Source) {
    var m := |TreeNames(tree)|;
    m <= |names| && forall j :: 0 <= j < m ==> names[j] in TreeNames(tree)
  }

  /** Each name of the tree belongs to a single variable object. */
  predicate SingleObjects(tree: Source) {
    forall x, y :: x in VarsOf(tree) && y in VarsOf(tree) && x.name == y.name ==> x == y
  }

  /**
   * The case in which a row is what it says: the first m domain names are distinct and are the
   * tree's names, and each name is one object in the tree.
   */
  predicate WellFormed(names: seq<string>, tree: Source) {
    var m := |TreeNames(tree)|;
    Covers(names, tree) &&
    (forall i, j :: 0 <= i < j < m ==> names[i] != names[j]) &&
    (forall n :: n in TreeNames(tree) ==> exists j :: 0 <= j < m && names[j] == n) &&
    SingleObjects(tree)
  }

  /** The value of the tree at row `k`. */
  function EvalRow(names: seq<string>, tree: Source, k: Int32): Result<BooleanValue>
    requires Covers(names, tree)
  {
    Eval(tree, RowEnv(names, |TreeNames(tree)|, k))
  }

  /** Distinct names look up their own position. */
  lemma {:induction false} LookupAt(names: seq<string>, bits: seq<BooleanValue>, j: nat)
    requires |bits| <= |names| && j < |bits|
    requires forall a, b :: 0 <= a < b < |bits| ==> names[a] != names[b]
    ensures Lookup(names, bits, names[j]) == bits[j]
  {
    if j > 0 {
      assert names[0] != names[j];
      LookupAt(names[1..], bits[1..], j - 1);
    }
  }

  /** In a well-formed tree, each variable is the one first named by some domain name below m. */
  lemma NamedBy(names: seq<string>, tree: Source, x: BooleanVariable) returns (j: nat)
    requires WellFormed(names, tree) && x in VarsOf(tree)
    ensures j < |TreeNames(tree)| && names[j] == x.name
    ensures FirstNamed(VarList(tree), names[j]) == Some(x)
  {
    var l := VarList(tree);
    VarListIsVars(tree);
    var i :| 0 <= i < |l| && l[i] == x;
    NamesMeaning(l, x.name);
    assert x.name in TreeNames(tree);
    j :| 0 <= j < |TreeNames(tree)| && names[j] == x.name;
    var y := FirstNamed(l, names[j]).value;
    assert y in VarsOf(tree);
  }

  /**
   * Each tree variable that is first named like one of the first |bits| names holds the bit of
   * the last position carrying that name.
   */
  ghost predicate LastWritten(names: seq<string>, tree: Source, bits: seq<BooleanValue>)
    reads VarsOf(tree)
  {
    VarListIsVars(tree);
    forall j ::
      (0 <= j < |bits| && j < |names| && names[j] in TreeNames(tree) &&
       forall j' :: j < j' < |bits| && j' < |names| ==> names[j'] != names[j]) ==>
        FirstNamed(VarList(tree), names[j]).value.value == bits[j]
  }

  /**
   * With a well-formed tree, once the variable first named `names[j]` holds bit j for each j below
   * m, the tree has its value at that row.
   */
  lemma AssignedTreeValue(names: seq<string>, tree: Source, k: Int32, bits: seq<BooleanValue>)
    requires WellFormed(names, tree)
    requires bits == BinaryValues(|TreeNames(tree)|, k) && LastWritten(names, tree, bits)
    ensures Value(tree) == EvalRow(names, tree, k)
  {
    var m := |TreeNames(tree)|;
    var env := RowEnv(names, m, k);
    forall x | x in VarsOf(tree) ensures x.value == env(x.name) {
      var j := NamedBy(names, tree, x);
      LookupAt(names, bits, j);
    }
    ValueIsEval(tree, env);
  }

  /** `ArrayList.indexOf`: the first position holding an equal variable, -1 if none. */
  method IndexOf(l: seq<BooleanVariable>, v: BooleanVariable) returns (p: int)
    ensures -1 <= p < |l|
    ensures p >= 0 ==> v.Equals(l[p]) && forall q :: 0 <= q < p ==> !v.Equals(l[q])
    ensures p == -1 ==> forall q :: 0 <= q < |l| ==> !v.Equals(l[q])
  {
    for q := 0 to |l|
      invariant forall q' :: 0 <= q' < q ==> !v.Equals(l[q'])
    {
      if v.Equals(l[q]) {
        return q;
      }
    }
    return -1;
  }

  /**
   * The loop of `evaluateIndex`: bit i goes into the variable of the tree's domain that carries the
   * name of domain variable i; it stops with `false` at the first i with no domain variable or no
   * such tree variable.
   */
  method WriteBits(domain: seq<BooleanVariable>, ghost names: seq<string>, operatorDomain: seq<BooleanVariable>,
                   ghost tree: Source, bits: seq<BooleanValue>) returns (ok: bool)
    requires |domain| == |names| && forall i :: 0 <= i < |domain| ==> domain[i].name == names[i]
    requires IsDomainOf(operatorDomain, VarList(tree)) && |bits| == |TreeNames(tree)|
    modifies VarsOf(tree)
    ensures ok <==> Covers(names, tree)
    ensures ok ==> LastWritten(names, tree, bits)
  {
    ghost var l := VarList(tree);
    VarListIsVars(tree);
    ghost var written: seq<BooleanVariable> := [];
    for i := 0 to |bits|
      invariant |written| == i && i <= |domain|
      invariant forall j :: 0 <= j < i ==> names[j] in TreeNames(tree) && FirstNamed(l, names[j]) == Some(written[j])
      invariant forall j :: 0 <= j < i && (forall j' :: j < j' < i ==> names[j'] != names[j]) ==>
        written[j].value == bits[j]
    {
      if i >= |domain| {
        return false;
      }
      var v := domain[i];
      var pos := IndexOf(operatorDomain, v);
      if pos < 0 {
        NamesMeaning(operatorDomain, v.name);
        return false;
      }
      var operatorVar := operatorDomain[pos];
      assert FirstNamed(l, operatorVar.name) == Some(operatorVar);
      operatorVar.SetValue(bits[i]);
      written := written + [operatorVar];
    }
    ok := true;
  }

  /** `hasMinterm` and its kin: whether the evaluated value is `v`; a failure passes through. */
  function Is(value: Result<BooleanValue>, v: BooleanValue): Result<bool> {
    match value
    case Failure(e) => Failure(e)
    case Success(x) => Success(x == v)
  }

  /**
   * The rows among `rows`, in their order, at which the tree evaluated row by row has value `v`;
   * the first row whose evaluation fails ends the scan with that failure.
   */
  function RowsWith(names: seq<string>, tree: Source, rows: seq<Int32>, v: BooleanValue): Result<seq<Int32>>
    requires Covers(names, tree)
    decreases |rows|
  {
    if rows == [] then Success([])
    else
      var last := rows[|rows| - 1];
      match RowsWith(names, tree, rows[..|rows| - 1], v)
      case Failure(e) => Failure(e)
      case Success(found) =>
        match EvalRow(names, tree, last)
        case Failure(e) => Failure(e)
        case Success(x) => Success(if x == v then found + [last] else found)
  }

  /** The scan succeeds exactly when every row evaluates, and then finds exactly the rows with value `v`. */
  lemma {:induction false} RowsWithMeaning(names: seq<string>, tree: Source, rows: seq<Int32>, v: BooleanValue)
    requires Covers(names, tree)
    ensures var r := RowsWith(names, tree, rows, v);
      (r.Success? <==> forall k :: k in rows ==> EvalRow(names, tree, k).Success?) &&
      (r.Success? ==> forall k :: k in r.value <==> k in rows && EvalRow(names, tree, k) == Success(v))
    decreases |rows|
  {
    if rows != [] {
      var last := rows[|rows| - 1];
      assert rows == rows[..|rows| - 1] + [last];
      RowsWithMeaning(names, tree, rows[..|rows| - 1], v);
    }
  }

  /** Once a prefix of the rows fails, the whole scan fails the same way. */
  lemma {:induction false} RowsWithFailure(names: seq<string>, tree: Source, rows: seq<Int32>, v: BooleanValue, j: nat)
    requires Covers(names, tree) && j <= |rows| && RowsWith(names, tree, rows[..j], v).Failure?
    ensures RowsWith(names, tree, rows, v) == RowsWith(names, tree, rows[..j], v)
    decreases |rows|
  {
    if j < |rows| {
      var init := rows[..|rows| - 1];
      assert init[..j] == rows[..j];
      RowsWithFailure(names, tree, init, v, j);
    } else {
      assert rows[..j] == rows;
    }
  }

  /**
   * Scanning the whole table: what is found lies inside the table, is exactly the rows with value
   * `v`, and every row of the table evaluates.
   */
  lemma RowsOfTable(names: seq<string>, tree: Source, tableSize: Int32, v: BooleanValue, found: seq<Int32>)
    requires Covers(names, tree) && RowsWith(names, tree, TableRange(tableSize), v) == Success(found)
    ensures InTable(found, tableSize)
    ensures forall k: Int32 :: k in found <==> 0 <= k < tableSize && EvalRow(names, tree, k) == Success(v)
    ensures forall k: Int32 :: 0 <= k < tableSize ==> EvalRow(names, tree, k).Success?
  {
    var rows := TableRange(tableSize);
    RowsWithMeaning(names, tree, rows, v);
    forall k: Int32 | 0 <= k < tableSize
      ensures k in rows
    {
      assert rows[k] == k;
    }
    forall i | 0 <= i < |found|
      ensures 0 <= found[i] < tableSize
    {
      assert found[i] in rows;
    }
  }

  /** A failed scan of the table means some row of the table does not evaluate. */
  lemma RowsOfTableFail(names: seq<string>, tree: Source, tableSize: Int32, v: BooleanValue)
    requires Covers(names, tree) && RowsWith(names, tree, TableRange(tableSize), v).Failure?
    ensures exists k: Int32 :: 0 <= k < tableSize && EvalRow(names, tree, k).Failure?
  {
    RowsWithMeaning(names, tree, TableRange(tableSize), v);
    var k :| k in TableRange(tableSize) && EvalRow(names, tree, k).Failure?;
  }

  /** The two scans of the table give lists inside the table with no row in both. */
  lemma RowsDisjoint(names: seq<string>, tree: Source, tableSize: Int32, minterms: seq<Int32>, dontCares: seq<Int32>)
    requires Covers(names, tree)
    requires RowsWith(names, tree, TableRange(tableSize), TRUE) == Success(minterms)
    requires RowsWith(names, tree, TableRange(tableSize), DONT_CARE) == Success(dontCares)
    ensures InTable(minterms, tableSize) && InTable(dontCares, tableSize) && Disjoint(minterms, dontCares)
  {
    RowsOfTable(names, tree, tableSize, TRUE, minterms);
    RowsOfTable(names, tree, tableSize, DONT_CARE, dontCares);
    forall i, j | 0 <= i < |minterms| && 0 <= j < |dontCares|
      ensures minterms[i] != dontCares[j]
    {
      assert minterms[i] in minterms && dontCares[j] in dontCares;
    }
  }

  /** The helper `initTraversalHelper` builds: minterm mode, over a fresh list holding the don't-cares. */
  method NewMintermHelper(domain: seq<BooleanVariable>, minterms: seq<Int32>, dontCares: seq<Int32>)
    returns (helper: BFGrandUnifier)
    requires |domain| < TWO_31
    ensures fresh(helper) && fresh(helper.dontCareIndexes) && helper.Valid() && helper.indexesAreMinterms
    ensures |helper.domain| == |domain| && helper.tableSize == JavaBitMask(|domain|)
    ensures helper.givenIndexes == minterms && helper.givenDontCares == dontCares
  {
    var dontCareList := new IntList(dontCares);
    helper := new BFGrandUnifier(domain, minterms, dontCareList, true);
  }

  // ---------------------------------------------------------------- the function object

  class OperatorTreeBF {
    const name: string
    /** Clones of the caller's variables; `evaluateIndex` replaces the list with fresh clones. */
    var domain: seq<BooleanVariable>
    /** The caller's tree, kept by reference together with its variables. */
    const operatorTree: Source
    /** Set by `initTraversalHelper`. */
    var traversalHelper: BFGrandUnifier?
    /** The names of the domain variables, which no operation changes. */
    ghost const domainNames: seq<string>

    ghost predicate Valid()
      reads this
    {
      |domain| == |domainNames| && forall i :: 0 <= i < |domain| ==> domain[i].name == domainNames[i]
    }

    /** The part of the constructor before `initTraversalHelper`: clones the domain and keeps the tree. */
    constructor (name: string, domain: seq<BooleanVariable>, operatorTree: Source)
      ensures Valid() && traversalHelper == null
      ensures this.name == name && this.operatorTree == operatorTree
      ensures fresh(this.domain) && SameVariables(this.domain, domain)
      ensures domainNames == seq(|domain|, i requires 0 <= i < |domain| => domain[i].name)
    {
      var copy := CopyBooleanVariableList(domain);
      this.name := name;
      this.domain := copy;
      this.operatorTree := operatorTree;
      this.traversalHelper := null;
      this.domainNames := seq(|domain|, i requires 0 <= i < |domain| => domain[i].name);
    }

    /**
     * `evaluateIndex`: bit j of the index (over as many bits as the tree has variable names) is
     * written into the tree variable first named like domain variable j; a domain shorter than
     * that, or a domain name missing from the tree, ends it with IndexOutOfBoundsException. The
     * variables keep the values written; the domain list is replaced by fresh clones; the answer is
     * the tree's value.
     */
    method EvaluateIndex(index: Int32) returns (r: Result<BooleanValue>)
      requires Valid()
      modifies this, VarsOf(operatorTree)
      ensures Valid() && traversalHelper == old(traversalHelper)
      ensures !Covers(domainNames, operatorTree) ==> r == Failure(IndexOutOfBounds)
      ensures Covers(domainNames, operatorTree) ==> r == Value(operatorTree)
      ensures WellFormed(domainNames, operatorTree) ==> r == EvalRow(domainNames, operatorTree, index)
      ensures Covers(domainNames, operatorTree) ==>
        LastWritten(domainNames, operatorTree, BinaryValues(|TreeNames(operatorTree)|, index))
    {
      VarsAllocated(operatorTree);
      var originalDomain := CopyBooleanVariableList(domain);
      assert forall j :: 0 <= j < |originalDomain| ==> originalDomain[j].name == domainNames[j];
      ghost var bits := BinaryValues(|TreeNames(operatorTree)|, index);
      var ok := WriteIndex(index);
      if !ok {
        return Failure(IndexOutOfBounds);
      }
      domain := originalDomain;
      r := BooleanSources.GetValue(operatorTree);
      if WellFormed(domainNames, operatorTree) {
        AssignedTreeValue(domainNames, operatorTree, index, bits);
      }
    }

    /**
     * The loop of `evaluateIndex` with what it needs: the tree's domain, and the index as as many
     * bits as the domain has variables, each written into its variable.
     */
    method WriteIndex(index: Int32) returns (ok: bool)
      requires Valid()
      modifies VarsOf(operatorTree)
      ensures ok <==> Covers(domainNames, operatorTree)
      ensures ok ==> LastWritten(domainNames, operatorTree, BinaryValues(|TreeNames(operatorTree)|, index))
    {
      var operatorDomain := GetDomain(operatorTree);
      DomainSize(operatorDomain, operatorTree);
      var booleanIndex := IndexAsBinary(|operatorDomain|, index);
      ok := WriteBits(domain, domainNames, operatorDomain, operatorTree, booleanIndex.value);
    }

    /** `hasMinterm`: whether the row evaluates to TRUE. */
    method HasMinterm(index: Int32) returns (r: Result<bool>)
      requires Valid()
      modifies this, VarsOf(operatorTree)
      ensures Valid() && traversalHelper == old(traversalHelper)
      ensures !Covers(domainNames, operatorTree) ==> r == Failure(IndexOutOfBounds)
      ensures Covers(domainNames, operatorTree) ==> r == Is(Value(operatorTree), TRUE)
      ensures WellFormed(domainNames, operatorTree) ==> r == Is(EvalRow(domainNames, operatorTree, index), TRUE)
    {
      var value := EvaluateIndex(index);
      r := Is(value, TRUE);
    }

    /** `hasMaxterm`: whether the row evaluates to FALSE. */
    method HasMaxterm(index: Int32) returns (r: Result<bool>)
      requires Valid()
      modifies this, VarsOf(operatorTree)
      ensures Valid() && traversalHelper == old(traversalHelper)
      ensures !Covers(domainNames, operatorTree) ==> r == Failure(IndexOutOfBounds)
      ensures Covers(domainNames, operatorTree) ==> r == Is(Value(operatorTree), FALSE)
      ensures WellFormed(domainNames, operatorTree) ==> r == Is(EvalRow(domainNames, operatorTree, index), FALSE)
    {
      var value := EvaluateIndex(index);
      r := Is(value, FALSE);
    }

    /** `hasDontCare`: whether the row evaluates to DONT_CARE. */
    method HasDontCare(index: Int32) returns (r: Result<bool>)
      requires Valid()
      modifies this, VarsOf(operatorTree)
      ensures Valid() && traversalHelper == old(traversalHelper)
      ensures !Covers(domainNames, operatorTree) ==> r == Failure(IndexOutOfBounds)
      ensures Covers(domainNames, operatorTree) ==> r == Is(Value(operatorTree), DONT_CARE)
      ensures WellFormed(domainNames, operatorTree) ==> r == Is(EvalRow(domainNames, operatorTree, index), DONT_CARE)
    {
      var value := EvaluateIndex(index);
      r := Is(value, DONT_CARE);
    }

    /** `getIndexes`: the rows of `tableRange` that are minterms, through `filterInts`. */
    method GetIndexes(tableRange: seq<Int32>) returns (r: Result<seq<Int32>>)
      requires Valid()
      modifies this, VarsOf(operatorTree)
      ensures Valid() && traversalHelper == old(traversalHelper)
      ensures !Covers(domainNames, operatorTree) && tableRange != [] ==> r == Failure(IndexOutOfBounds)
      ensures WellFormed(domainNames, operatorTree) ==> r == RowsWith(domainNames, operatorTree, tableRange, TRUE)
      ensures r.Success? ==> |r.value| <= |tableRange| && forall x :: x in r.value ==> x in tableRange
    {
      var found := [];
      for i := 0 to |tableRange|
        invariant Valid() && traversalHelper == old(traversalHelper)
        invariant |found| <= i && forall x :: x in found ==> x in tableRange[..i]
        invariant !Covers(domainNames, operatorTree) ==> i == 0
        invariant WellFormed(domainNames, operatorTree) ==>
          RowsWith(domainNames, operatorTree, tableRange[..i], TRUE) == Success(found)
      {
        var accepted := HasMinterm(tableRange[i]);
        if accepted.Failure? {
          if WellFormed(domainNames, operatorTree) {
            assert tableRange[..i + 1][..i] == tableRange[..i];
            RowsWithFailure(domainNames, operatorTree, tableRange, TRUE, i + 1);
          }
          return Failure(accepted.error);
        }
        if accepted.value {
          found := found + [tableRange[i]];
        }
        assert tableRange[..i + 1][..i] == tableRange[..i];
      }
      assert tableRange[..|tableRange|] == tableRange;
      r := Success(found);
    }

    /** `getDontCares`: the rows of `tableRange` that are don't-cares, through `filterInts`. */
    method GetDontCares(tableRange: seq<Int32>) returns (r: Result<seq<Int32>>)
      requires Valid()
      modifies this, VarsOf(operatorTree)
      ensures Valid() && traversalHelper == old(traversalHelper)
      ensures !Covers(domainNames, operatorTree) && tableRange != [] ==> r == Failure(IndexOutOfBounds)
      ensures WellFormed(domainNames, operatorTree) ==> r == RowsWith(domainNames, operatorTree, tableRange, DONT_CARE)
      ensures r.Success? ==> |r.value| <= |tableRange| && forall x :: x in r.value ==> x in tableRange
    {
      var found := [];
      for i := 0 to |tableRange|
        invariant Valid() && traversalHelper == old(traversalHelper)
        invariant |found| <= i && forall x :: x in found ==> x in tableRange[..i]
        invariant !Covers(domainNames, operatorTree) ==> i == 0
        invariant WellFormed(domainNames, operatorTree) ==>
          RowsWith(domainNames, operatorTree, tableRange[..i], DONT_CARE) == Success(found)
      {
        var accepted := HasDontCare(tableRange[i]);
        if accepted.Failure? {
          if WellFormed(domainNames, operatorTree) {
            assert tableRange[..i + 1][..i] == tableRange[..i];
            RowsWithFailure(domainNames, operatorTree, tableRange, DONT_CARE, i + 1);
          }
          return Failure(accepted.error);
        }
        if accepted.value {
          found := found + [tableRange[i]];
        }
        assert tableRange[..i + 1][..i] == tableRange[..i];
      }
      assert tableRange[..|tableRange|] == tableRange;
      r := Success(found);
    }

    /**
     * The helper has been built over as many variables in minterm mode and, when the tree is
     * well formed, from the rows evaluating to TRUE and to DONT_CARE.
     */
    ghost predicate Built()
      reads this, traversalHelper, if traversalHelper != null then {traversalHelper.dontCareIndexes} else {}
    {
      Valid() && traversalHelper != null && traversalHelper.Valid() && traversalHelper.indexesAreMinterms &&
      |traversalHelper.domain| == |domain| &&
      (WellFormed(domainNames, operatorTree) ==>
        var rows := TableRange(traversalHelper.tableSize);
        RowsWith(domainNames, operatorTree, rows, TRUE) == Success(traversalHelper.givenIndexes) &&
        RowsWith(domainNames, operatorTree, rows, DONT_CARE) == Success(traversalHelper.givenDontCares))
    }

    /**
     * `initTraversalHelper`: evaluates every row of the 2^n table (n the domain size, with `int`
     * arithmetic) for minterms, then for don't-cares, and builds the helper in minterm mode from
     * the two lists; an exception from an evaluation is returned.
     */
    method InitTraversalHelper() returns (e: Option<Error>)
      requires Valid() && |domain| < TWO_31
      modifies this, VarsOf(operatorTree)
      ensures Valid()
      ensures e.None? ==> Built() && fresh(traversalHelper)
      ensures !Covers(domainNames, operatorTree) && |domainNames| <= 30 ==> e == Some(IndexOutOfBounds)
      ensures WellFormed(domainNames, operatorTree) ==>
        (e.None? <==> forall k: Int32 :: 0 <= k < JavaBitMask(|domainNames|) ==> EvalRow(domainNames, operatorTree, k).Success?)
    {
      var tableLength := BinaryVariationsCount(|domain| as Int32);
      assert |domainNames| <= 30 ==> tableLength > 0;
      var tableRange := Range(0, tableLength, 1);
      RangeOfOne(tableRange, tableLength);
      assert tableRange == TableRange(tableLength);
      ghost var wellFormed := WellFormed(domainNames, operatorTree);
      var indexes := GetIndexes(tableRange);
      if indexes.Failure? {
        if wellFormed {
          RowsOfTableFail(domainNames, operatorTree, tableLength, TRUE);
        }
        return Some(indexes.error);
      }
      var dontCares := GetDontCares(tableRange);
      if dontCares.Failure? {
        if wellFormed {
          RowsOfTableFail(domainNames, operatorTree, tableLength, DONT_CARE);
        }
        return Some(dontCares.error);
      }
      if wellFormed {
        RowsOfTable(domainNames, operatorTree, tableLength, TRUE, indexes.value);
      }
      var helper := NewMintermHelper(domain, indexes.value, dontCares.value);
      traversalHelper := helper;
      return None;
    }

    /**
     * A built function answers through its helper as its tree does: a row of the table is a
     * minterm, a don't-care or a maxterm exactly when the tree evaluates there to TRUE, DONT_CARE
     * or FALSE; no number outside the table is any of them.
     */
    lemma TableIsTree(k: Int32)
      requires Built() && WellFormed(domainNames, operatorTree)
      ensures 0 <= k < traversalHelper.tableSize ==>
        (traversalHelper.HasMinterm(k) <==> EvalRow(domainNames, operatorTree, k) == Success(TRUE)) &&
        (traversalHelper.HasDontCare(k) <==> EvalRow(domainNames, operatorTree, k) == Success(DONT_CARE)) &&
        (traversalHelper.HasMaxterm(k) <==> EvalRow(domainNames, operatorTree, k) == Success(FALSE))
      ensures !(0 <= k < traversalHelper.tableSize) ==>
        !traversalHelper.HasMinterm(k) && !traversalHelper.HasDontCare(k) && !traversalHelper.HasMaxterm(k)
    {
      var h := traversalHelper;
      var rows := TableRange(h.tableSize);
      RowsDisjoint(domainNames, operatorTree, h.tableSize, h.givenIndexes, h.givenDontCares);
      RowsWithMeaning(domainNames, operatorTree, rows, TRUE);
      RowsWithMeaning(domainNames, operatorTree, rows, DONT_CARE);
      h.ExactlyOne(k);
      assert h.HasDontCare(k) <==> k in h.givenDontCares by {
        assert k in h.dontCareIndexes.items <==> k in multiset(h.dontCareIndexes.items);
        assert k in h.givenDontCares <==> k in multiset(h.givenDontCares);
      }
      if 0 <= k < h.tableSize {
        assert rows[k] == k;
        var value := EvalRow(domainNames, operatorTree, k);
        assert value.Success?;
        assert value.value == TRUE || value.value == FALSE || value.value == DONT_CARE;
      }
    }

    /** `mintermIterable`: the helper's minterms, ascending. */
    function Minterms(): (r: seq<Int32>)
      requires Built()
      reads this, traversalHelper, traversalHelper.dontCareIndexes
      ensures Sorted(r)
      ensures forall k :: k in r <==> traversalHelper.HasMinterm(k)
    {
      traversalHelper.mintermIndexes
    }

    /** `maxtermIterable`: the helper's maxterms, ascending. */
    function Maxterms(): (r: seq<Int32>)
      requires Built()
      reads this, traversalHelper, traversalHelper.dontCareIndexes
      ensures Sorted(r)
      ensures forall k :: k in r <==> traversalHelper.HasMaxterm(k)
    {
      traversalHelper.maxtermIndexes
    }

    /** `dontcareIterable`: the helper's don't-cares, ascending. */
    function DontCares(): (r: seq<Int32>)
      requires Built()
      reads this, traversalHelper, traversalHelper.dontCareIndexes
      ensures Sorted(r)
      ensures forall k :: k in r <==> traversalHelper.HasDontCare(k)
    {
      traversalHelper.dontCareIndexes.items
    }

    /** `getValue`: the tree's value under what its variables hold now. */
    method GetValue() returns (r: Result<BooleanValue>)
      ensures r == Value(operatorTree)
    {
      r := BooleanSources.GetValue(operatorTree);
    }

    /**
     * The public constructor: clones the domain, keeps the tree and builds the helper by
     * evaluating every row, which leaves the tree's variables holding the last row written.
     */
    static method Create(name: string, domain: seq<BooleanVariable>, operatorTree: Source) returns (r: Result<OperatorTreeBF>)
      requires |domain| < TWO_31
      modifies VarsOf(operatorTree)
      ensures r.Success? ==> fresh(r.value) && r.value.Built()
      ensures r.Success? ==> r.value.name == name && r.value.operatorTree == operatorTree
      ensures r.Success? ==> r.value.domainNames == seq(|domain|, i requires 0 <= i < |domain| => domain[i].name)
      ensures var names := seq(|domain|, i requires 0 <= i < |domain| => domain[i].name);
        !Covers(names, operatorTree) && |domain| <= 30 ==> r == Failure(IndexOutOfBounds)
      ensures var names := seq(|domain|, i requires 0 <= i < |domain| => domain[i].name);
        WellFormed(names, operatorTree) ==>
          (r.Success? <==> forall k: Int32 :: 0 <= k < JavaBitMask(|domain|) ==> EvalRow(names, operatorTree, k).Success?)
    {
      var f := new OperatorTreeBF(name, domain, operatorTree);
      var e := f.InitTraversalHelper();
      if e.Some? {
        return Failure(e.value);
      }
      r := Success(f);
    }
  }
}
