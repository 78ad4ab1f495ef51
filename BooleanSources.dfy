/**
 * Boolean sources: the constants TRUE and FALSE, variables, and operator trees built by
 * `BooleanOperators.and / or / not`. A tree holds its variables by reference, so its value is
 * read from the current values of those variable objects.
 */
module BooleanSources {
  import opened Wrappers
  import opened Values
  import opened Kleene
  import opened Variables

  /** `BooleanOperator` itself, or one of its three concrete subclasses. */
  datatype OperatorKind = BASE | AND | OR | NOT

  /** The constructor of `BooleanConstant` is private: only the TRUE and FALSE instances exist. */
  type ConstantValue = v: BooleanValue | v != DONT_CARE witness TRUE

  datatype Source =
    | Constant(constant: ConstantValue)
    | Variable(variable: BooleanVariable)
    | Operator(kind: OperatorKind, sources: seq<Source>)

  const TRUE_CONSTANT: Source := Constant(TRUE)
  const FALSE_CONSTANT: Source := Constant(FALSE)

  // ---------------------------------------------------------------- the variables of a tree

  /** The variable objects reachable in `s`. */
  function VarsOf(s: Source): set<BooleanVariable>
    decreases s, 1
  {
    match s
    case Constant(_) => {}
    case Variable(x) => {x}
    case Operator(_, ss) => VarsUpTo(s, |ss|)
  }

  /** The variable objects of the first `i` sources of an operator. */
  function VarsUpTo(s: Source, i: nat): set<BooleanVariable>
    requires s.Operator? && i <= |s.sources|
    decreases s, 0, i
  {
    if i == 0 then {} else VarsUpTo(s, i - 1) + VarsOf(s.sources[i - 1])
  }

  lemma {:induction false} VarsUpToMonotone(s: Source, i: nat, j: nat)
    requires s.Operator? && i <= j <= |s.sources|
    ensures VarsUpTo(s, i) <= VarsUpTo(s, j)
    decreases j
  {
    if i < j {
      VarsUpToMonotone(s, i, j - 1);
    }
  }

  /** The variables of a tree in left-to-right order, each occurrence listed. */
  function VarList(s: Source): seq<BooleanVariable>
    decreases s, 1
  {
    match s
    case Constant(_) => []
    case Variable(x) => [x]
    case Operator(_, ss) => VarListUpTo(s, |ss|)
  }

  function VarListUpTo(s: Source, i: nat): seq<BooleanVariable>
    requires s.Operator? && i <= |s.sources|
    decreases s, 0, i
  {
    if i == 0 then [] else VarListUpTo(s, i - 1) + VarList(s.sources[i - 1])
  }

  /** The variables of a tree are allocated objects (a method call leaves their values to the frame). */
  lemma {:induction false} VarsAllocated(s: Source)
    ensures forall o :: o in VarsOf(s) ==> allocated(o)
    decreases s, 1
  {
    match s
    case Constant(_) =>
    case Variable(_) =>
    case Operator(_, ss) => VarsUpToAllocated(s, |ss|);
  }

  lemma {:induction false} VarsUpToAllocated(s: Source, i: nat)
    requires s.Operator? && i <= |s.sources|
    ensures forall o :: o in VarsUpTo(s, i) ==> allocated(o)
    decreases s, 0, i
  {
    if i > 0 {
      VarsUpToAllocated(s, i - 1);
      VarsAllocated(s.sources[i - 1]);
    }
  }

  /** The listed variables are the reachable ones. */
  lemma {:induction false} VarListIsVars(s: Source)
    ensures forall x :: x in VarList(s) <==> x in VarsOf(s)
    decreases s, 1
  {
    match s
    case Constant(_) =>
    case Variable(_) =>
    case Operator(_, ss) => VarListUpToIsVars(s, |ss|);
  }

  lemma {:induction false} VarListUpToIsVars(s: Source, i: nat)
    requires s.Operator? && i <= |s.sources|
    ensures forall x :: x in VarListUpTo(s, i) <==> x in VarsUpTo(s, i)
    decreases s, 0, i
  {
    if i > 0 {
      VarListUpToIsVars(s, i - 1);
      VarListIsVars(s.sources[i - 1]);
    }
  }

  // ---------------------------------------------------------------- getValue

  /**
   * What `getValue` answers: a constant's value, a variable's current value; for an operator the
   * sources' values in order, a failure of the first failing source propagating; the base class
   * and an operator without sources fail.
   */
  function Value(s: Source): Result<BooleanValue>
    reads VarsOf(s)
    decreases s, 1
  {
    match s
    case Constant(v) => Success(v)
    case Variable(x) => Success(x.value)
    case Operator(kind, ss) =>
      if kind == BASE then Failure(UnsupportedOperation)
      else if |ss| == 0 then Failure(IndexOutOfBounds)
      else if kind == NOT then
        VarsUpToMonotone(s, 1, |ss|);
        match ValuesUpTo(s, 1)
        case Failure(e) => Failure(e)
        case Success(vals) => Success(Not(vals[0]))
      else
        match ValuesUpTo(s, |ss|)
        case Failure(e) => Failure(e)
        case Success(vals) => Success(Combined(kind, vals))
  }

  /** The values of an AND or OR operator's sources folded by its operation. */
  function Combined(kind: OperatorKind, vals: seq<BooleanValue>): BooleanValue
    requires |vals| > 0
  {
    if kind == AND then AndAll(vals) else OrAll(vals)
  }

  /** The value of an AND or OR operator with sources, in terms of the values of all of them. */
  lemma OperatorValue(s: Source)
    requires s.Operator? && (s.kind == AND || s.kind == OR) && 0 < |s.sources|
    ensures ValuesUpTo(s, |s.sources|).Failure? ==> Value(s) == Failure(ValuesUpTo(s, |s.sources|).error)
    ensures ValuesUpTo(s, |s.sources|).Success? ==>
      Value(s) == Success(Combined(s.kind, ValuesUpTo(s, |s.sources|).value))
  {
  }

  /** One more value is folded into what the first ones give. */
  lemma CombinedStep(kind: OperatorKind, vals: seq<BooleanValue>, v: BooleanValue)
    requires |vals| > 0
    ensures Combined(kind, vals + [v]) == if kind == AND then And(Combined(kind, vals), v) else Or(Combined(kind, vals), v)
  {
    assert (vals + [v])[..|vals|] == vals;
  }

  /** The values of the first `i` sources, evaluated left to right. */
  function ValuesUpTo(s: Source, i: nat): (r: Result<seq<BooleanValue>>)
    requires s.Operator? && i <= |s.sources|
    reads VarsUpTo(s, i)
    ensures r.Success? ==> |r.value| == i
    decreases s, 0, i
  {
    if i == 0 then Success([])
    else
      match ValuesUpTo(s, i - 1)
      case Failure(e) => Failure(e)
      case Success(vals) =>
        match Value(s.sources[i - 1])
        case Failure(e) => Failure(e)
        case Success(v) => Success(vals + [v])
  }

  /**
   * The sources of an operator evaluate together exactly when each does; the values are theirs,
   * and a failure is the one of the first failing source.
   */
  lemma {:induction false} ValuesUpToMeaning(s: Source, i: nat)
    requires s.Operator? && i <= |s.sources|
    ensures ValuesUpTo(s, i).Success? <==> forall k :: 0 <= k < i ==> Value(s.sources[k]).Success?
    ensures ValuesUpTo(s, i).Success? ==>
      forall k :: 0 <= k < i ==> ValuesUpTo(s, i).value[k] == Value(s.sources[k]).value
    ensures ValuesUpTo(s, i).Failure? ==>
      exists k :: (0 <= k < i && Value(s.sources[k]).Failure? &&
        ValuesUpTo(s, i).error == Value(s.sources[k]).error &&
        forall j :: 0 <= j < k ==> Value(s.sources[j]).Success?)
    decreases i
  {
    if i > 0 {
      ValuesUpToMeaning(s, i - 1);
    }
  }

  /** `getValue`: a constant's value, a variable's current value, or the operator's evaluation. */
  method GetValue(s: Source) returns (r: Result<BooleanValue>)
    ensures r == Value(s)
    decreases s, 2
  {
    match s
    case Constant(v) =>
      r := Success(v);
    case Variable(x) =>
      r := Success(x.value);
    case Operator(_, _) =>
      r := GetOperatorValue(s);
  }

  /** `getValue` of the operators: the base class throws, NOT reads its first source, AND and OR loop. */
  method GetOperatorValue(s: Source) returns (r: Result<BooleanValue>)
    requires s.Operator?
    ensures r == Value(s)
    decreases s, 1
  {
    var kind, ss := s.kind, s.sources;
    if kind == BASE {
      return Failure(UnsupportedOperation);
    }
    if |ss| == 0 {
      return Failure(IndexOutOfBounds);
    }
    var first := GetValue(ss[0]);
    assert ValuesUpTo(s, 0) == Success([]);
    ValuesUpToStep(s, 0, []);
    if first.Failure? {
      FailureStaysUpTo(s, 1, |ss|);
      return Failure(first.error);
    }
    assert [] + [first.value] == [first.value];
    if kind == NOT {
      return Success(Not(first.value));
    }
    r := CombineSources(s, first.value);
  }

  /** The loop of AND and OR: each further source's value combined into the first one's. */
  method CombineSources(s: Source, first: BooleanValue) returns (r: Result<BooleanValue>)
    requires s.Operator? && (s.kind == AND || s.kind == OR) && 0 < |s.sources|
    requires ValuesUpTo(s, 1) == Success([first])
    ensures r == Value(s)
    decreases s, 0
  {
    var kind, ss := s.kind, s.sources;
    var result := first;
    ghost var vals := [first];
    var i := 1;
    while i < |ss|
      invariant 1 <= i <= |ss|
      invariant ValuesUpTo(s, i) == Success(vals)
      invariant result == Combined(kind, vals)
    {
      VarsUpToAllocated(s, i);
      var next := GetValue(ss[i]);
      ValuesUpToStep(s, i, vals);
      if next.Failure? {
        FailureStaysUpTo(s, i + 1, |ss|);
        OperatorValue(s);
        return Failure(next.error);
      }
      result := if kind == AND then And(result, next.value) else Or(result, next.value);
      CombinedStep(kind, vals, next.value);
      vals := vals + [next.value];
      i := i + 1;
    }
    OperatorValue(s);
    r := Success(result);
  }

  /** One more source: its failure ends the evaluation, its value is appended otherwise. */
  lemma ValuesUpToStep(s: Source, i: nat, vals: seq<BooleanValue>)
    requires s.Operator? && i < |s.sources| && ValuesUpTo(s, i) == Success(vals)
    ensures Value(s.sources[i]).Failure? ==> ValuesUpTo(s, i + 1) == Failure(Value(s.sources[i]).error)
    ensures Value(s.sources[i]).Success? ==> ValuesUpTo(s, i + 1) == Success(vals + [Value(s.sources[i]).value])
  {
  }

  /** Once a prefix of the sources fails, every longer prefix fails the same way. */
  lemma {:induction false} FailureStaysUpTo(s: Source, i: nat, j: nat)
    requires s.Operator? && 0 < i <= j <= |s.sources| && ValuesUpTo(s, i).Failure?
    ensures ValuesUpTo(s, j) == ValuesUpTo(s, i)
    decreases j
  {
    if i < j {
      FailureStaysUpTo(s, i, j - 1);
    }
  }

  // ---------------------------------------------------------------- BooleanOperators

  /** `BooleanOperators.and`. */
  function AndOf(sources: seq<Source>): Source {
    Operator(AND, sources)
  }

  /** `BooleanOperators.or`. */
  function OrOf(sources: seq<Source>): Source {
    Operator(OR, sources)
  }

  /** `BooleanOperators.not`: refuses anything but exactly one source. */
  function NotOf(sources: seq<Source>): (r: Result<Source>)
    ensures r.Success? <==> |sources| == 1
    ensures r.Failure? ==> r.error == IllegalArgument
    ensures r.Success? ==> r.value.Operator? && r.value.kind == NOT && r.value.sources == sources
  {
    if |sources| != 1 then Failure(IllegalArgument) else Success(Operator(NOT, sources))
  }

  /**
   * An AND of sources that all evaluate is FALSE iff one of them is, TRUE iff all are, and
   * DONT_CARE otherwise; with no sources it fails.
   */
  lemma AndValue(sources: seq<Source>)
    requires forall k :: 0 <= k < |sources| ==> Value(sources[k]).Success?
    ensures |sources| == 0 ==> Value(AndOf(sources)) == Failure(IndexOutOfBounds)
    ensures |sources| > 0 ==> Value(AndOf(sources)).Success?
    ensures |sources| > 0 ==> (Value(AndOf(sources)).value == FALSE <==>
      exists k :: 0 <= k < |sources| && Value(sources[k]).value == FALSE)
    ensures |sources| > 0 ==> (Value(AndOf(sources)).value == TRUE <==>
      forall k :: 0 <= k < |sources| ==> Value(sources[k]).value == TRUE)
  {
    var s := AndOf(sources);
    if |sources| > 0 {
      assert s.sources == sources;
      ValuesUpToMeaning(s, |sources|);
      AndAllMeaning(ValuesUpTo(s, |sources|).value);
    }
  }

  /**
   * An OR of sources that all evaluate is TRUE iff one of them is, FALSE iff all are, and
   * DONT_CARE otherwise; with no sources it fails.
   */
  lemma OrValue(sources: seq<Source>)
    requires forall k :: 0 <= k < |sources| ==> Value(sources[k]).Success?
    ensures |sources| == 0 ==> Value(OrOf(sources)) == Failure(IndexOutOfBounds)
    ensures |sources| > 0 ==> Value(OrOf(sources)).Success?
    ensures |sources| > 0 ==> (Value(OrOf(sources)).value == TRUE <==>
      exists k :: 0 <= k < |sources| && Value(sources[k]).value == TRUE)
    ensures |sources| > 0 ==> (Value(OrOf(sources)).value == FALSE <==>
      forall k :: 0 <= k < |sources| ==> Value(sources[k]).value == FALSE)
  {
    var s := OrOf(sources);
    if |sources| > 0 {
      assert s.sources == sources;
      ValuesUpToMeaning(s, |sources|);
      OrAllMeaning(ValuesUpTo(s, |sources|).value);
    }
  }

  /** NOT complements the value of its only source, and a constant is never DONT_CARE. */
  lemma NotValue(x: Source)
    ensures Value(Operator(NOT, [x])) ==
      if Value(x).Success? then Success(Not(Value(x).value)) else Value(x)
    ensures x.Constant? ==> Value(x).Success? && Value(x).value != DONT_CARE
  {
    var s := Operator(NOT, [x]);
    assert ValuesUpTo(s, 0) == Success([]);
  }

  // ---------------------------------------------------------------- getDomain

  /** The names of the variables in `l`. */
  function Names(l: seq<BooleanVariable>): set<string> {
    if l == [] then {} else {l[0].name} + Names(l[1..])
  }

  lemma {:induction false} NamesMeaning(l: seq<BooleanVariable>, name: string)
    ensures name in Names(l) <==> exists i :: 0 <= i < |l| && l[i].name == name
  {
    if l != [] {
      NamesMeaning(l[1..], name);
      if name in Names(l[1..]) {
        var i :| 0 <= i < |l[1..]| && l[1..][i].name == name;
        assert l[i + 1].name == name;
      }
      forall i | 1 <= i < |l| && l[i].name == name ensures name in Names(l[1..]) {
        assert l[1..][i - 1] == l[i];
      }
    }
  }

  /** The first variable of `l` called `name`: the one a `HashSet` keeps when `l` is added to it in order. */
  function FirstNamed(l: seq<BooleanVariable>, name: string): (r: Option<BooleanVariable>)
    ensures r.Some? <==> name in Names(l)
    ensures r.Some? ==> r.value in l && r.value.name == name
  {
    if l == [] then None
    else if l[0].name == name then Some(l[0])
    else
      assert forall x :: x in l[1..] ==> x in l;
      FirstNamed(l[1..], name)
  }

  predicate DistinctNames(l: seq<BooleanVariable>) {
    forall i, j :: 0 <= i < j < |l| ==> l[i].name != l[j].name
  }

  /**
   * `d` is a domain of the variable list `l` in the sense of `BooleanOperator.getDomain`: one
   * variable per name occurring in `l` (variables are equal when their names are), each the first
   * one of that name in `l`; the order is that of a `HashSet` and is left open.
   */
  predicate IsDomainOf(d: seq<BooleanVariable>, l: seq<BooleanVariable>) {
    DistinctNames(d) && Names(d) == Names(l) &&
    forall i :: 0 <= i < |d| ==> FirstNamed(l, d[i].name) == Some(d[i])
  }

  lemma {:induction false} FirstNamedAppend(l: seq<BooleanVariable>, m: seq<BooleanVariable>, name: string)
    ensures FirstNamed(l + m, name) == if name in Names(l) then FirstNamed(l, name) else FirstNamed(m, name)
  {
    if l != [] {
      assert (l + m)[1..] == l[1..] + m;
      FirstNamedAppend(l[1..], m, name);
    } else {
      assert l + m == m;
    }
  }

  lemma {:induction false} NamesAppend(l: seq<BooleanVariable>, m: seq<BooleanVariable>)
    ensures Names(l + m) == Names(l) + Names(m)
  {
    if l != [] {
      assert (l + m)[1..] == l[1..] + m;
      NamesAppend(l[1..], m);
    } else {
      assert l + m == m;
    }
  }

  /** A list with distinct names has as many entries as names. */
  lemma {:induction false} DistinctNamesCount(d: seq<BooleanVariable>)
    requires DistinctNames(d)
    ensures |Names(d)| == |d|
  {
    if d != [] {
      var rest := d[1..];
      assert DistinctNames(rest) by {
        forall i, j | 0 <= i < j < |rest| ensures rest[i].name != rest[j].name {
          assert rest[i] == d[i + 1] && rest[j] == d[j + 1];
        }
      }
      DistinctNamesCount(rest);
      NamesMeaning(rest, d[0].name);
    }
  }

  /** The domain of a tree has one entry per variable name in the tree. */
  lemma DomainSize(d: seq<BooleanVariable>, s: Source)
    requires IsDomainOf(d, VarList(s))
    ensures |d| == |Names(VarList(s))|
  {
    DistinctNamesCount(d);
  }

  /** A domain of `before` picks, for each name, the variable `before + added` picks first. */
  lemma DomainOfPrefix(d: seq<BooleanVariable>, before: seq<BooleanVariable>, added: seq<BooleanVariable>)
    requires IsDomainOf(d, before)
    ensures forall k :: 0 <= k < |d| ==> FirstNamed(before + added, d[k].name) == Some(d[k])
  {
    forall k | 0 <= k < |d|
      ensures FirstNamed(before + added, d[k].name) == Some(d[k])
    {
      FirstNamedAppend(before, added, d[k].name);
    }
  }

  lemma NamesStep(l: seq<BooleanVariable>, j: nat)
    requires j < |l|
    ensures Names(l[..j + 1]) == Names(l[..j]) + {l[j].name}
  {
    assert l[..j + 1] == l[..j] + [l[j]];
    NamesAppend(l[..j], [l[j]]);
  }

  /** Appending a variable whose name is new keeps `r` a domain of a prefix of `before + added`. */
  lemma AppendNewName(r: seq<BooleanVariable>, y: BooleanVariable,
                      before: seq<BooleanVariable>, added: seq<BooleanVariable>)
    requires DistinctNames(r) && y.name !in Names(r) && Names(before) <= Names(r)
    requires forall k :: 0 <= k < |r| ==> FirstNamed(before + added, r[k].name) == Some(r[k])
    requires FirstNamed(added, y.name) == Some(y)
    ensures DistinctNames(r + [y]) && Names(r + [y]) == Names(r) + {y.name}
    ensures forall k :: 0 <= k < |r + [y]| ==> FirstNamed(before + added, (r + [y])[k].name) == Some((r + [y])[k])
  {
    NamesAppend(r, [y]);
    FirstNamedAppend(before, added, y.name);
    forall i | 0 <= i < |r| ensures r[i].name != y.name {
      NamesMeaning(r, y.name);
    }
  }

  /**
   * `HashSet.addAll` as `getDomain` uses it: the variables of `child` not yet present (by name)
   * are appended to `d`, so a domain of `before` grows into a domain of `before + added`.
   */
  method AddAll(d: seq<BooleanVariable>, child: seq<BooleanVariable>,
                ghost before: seq<BooleanVariable>, ghost added: seq<BooleanVariable>)
    returns (r: seq<BooleanVariable>)
    requires IsDomainOf(d, before) && IsDomainOf(child, added)
    ensures IsDomainOf(r, before + added)
  {
    r := d;
    DomainOfPrefix(d, before, added);
    for j := 0 to |child|
      invariant DistinctNames(r)
      invariant Names(r) == Names(before) + Names(child[..j])
      invariant forall k :: 0 <= k < |r| ==> FirstNamed(before + added, r[k].name) == Some(r[k])
    {
      var y := child[j];
      NamesStep(child, j);
      NamesMeaning(r, y.name);
      if !(exists k :: 0 <= k < |r| && r[k].Equals(y)) {
        AppendNewName(r, y, before, added);
        r := r + [y];
      }
    }
    assert child[..|child|] == child;
    NamesAppend(before, added);
  }

  /**
   * `getDomain`: a constant has none, a variable is its own, and an operator collects its
   * sources' domains in a `HashSet`.
   */
  method GetDomain(s: Source) returns (d: seq<BooleanVariable>)
    ensures IsDomainOf(d, VarList(s))
    decreases s
  {
    match s
    case Constant(_) =>
      d := [];
    case Variable(x) =>
      d := [x];
    case Operator(_, ss) =>
      d := [];
      for i := 0 to |ss|
        invariant IsDomainOf(d, VarListUpTo(s, i))
      {
        var child := GetDomain(ss[i]);
        d := AddAll(d, child, VarListUpTo(s, i), VarList(ss[i]));
      }
  }
}
