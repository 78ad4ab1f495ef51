/** The three-valued connectives of the AND, OR and NOT operators (strong Kleene logic). */
module Kleene {
  import opened Values

  /** `BooleanOperatorAND.and`: FALSE dominates, then DONT_CARE. */
  function And(first: BooleanValue, second: BooleanValue): (r: BooleanValue)
    ensures r == FALSE <==> first == FALSE || second == FALSE
    ensures r == TRUE <==> first == TRUE && second == TRUE
  {
    if first == FALSE || second == FALSE then FALSE
    else if first == DONT_CARE || second == DONT_CARE then DONT_CARE
    else assert first.TRUE? && second.TRUE?; TRUE
  }

  /** `BooleanOperatorOR.or`: TRUE dominates, then DONT_CARE. */
  function Or(first: BooleanValue, second: BooleanValue): (r: BooleanValue)
    ensures r == TRUE <==> first == TRUE || second == TRUE
    ensures r == FALSE <==> first == FALSE && second == FALSE
  {
    if first == TRUE || second == TRUE then TRUE
    else if first == DONT_CARE || second == DONT_CARE then DONT_CARE
    else assert first.FALSE? && second.FALSE?; FALSE
  }

  /** NOT, and `BooleanSwissKnife.complementBooleanValue`: TRUE and FALSE swap, DONT_CARE stays. */
  function Not(v: BooleanValue): (r: BooleanValue)
    ensures r == TRUE <==> v == FALSE
    ensures r == FALSE <==> v == TRUE
    ensures r == DONT_CARE <==> v == DONT_CARE
  {
    match v
    case TRUE => FALSE
    case FALSE => TRUE
    case DONT_CARE => DONT_CARE
  }

  /** Complementing twice gives the value back. */
  lemma NotInvolution(v: BooleanValue)
    ensures Not(Not(v)) == v
  {
  }

  function FromBool(b: bool): BooleanValue {
    if b then TRUE else FALSE
  }

  /** On two-valued inputs the connectives are the Boolean ones. */
  lemma TwoValued(a: bool, b: bool)
    ensures And(FromBool(a), FromBool(b)) == FromBool(a && b)
    ensures Or(FromBool(a), FromBool(b)) == FromBool(a || b)
    ensures Not(FromBool(a)) == FromBool(!a)
  {
  }

  /** De Morgan's law holds for the three-valued connectives. */
  lemma DeMorgan(a: BooleanValue, b: BooleanValue)
    ensures Not(And(a, b)) == Or(Not(a), Not(b))
    ensures Not(Or(a, b)) == And(Not(a), Not(b))
  {
  }

  /** Both connectives are commutative and associative, so a left fold does not depend on grouping. */
  lemma Algebra(a: BooleanValue, b: BooleanValue, c: BooleanValue)
    ensures And(a, b) == And(b, a) && Or(a, b) == Or(b, a)
    ensures And(And(a, b), c) == And(a, And(b, c))
    ensures Or(Or(a, b), c) == Or(a, Or(b, c))
  {
  }

  /** The loop of `BooleanOperatorAND.getValue`: the first value, then `and` with each further one. */
  function AndAll(vals: seq<BooleanValue>): BooleanValue
    requires |vals| > 0
  {
    if |vals| == 1 then vals[0] else And(AndAll(vals[..|vals| - 1]), vals[|vals| - 1])
  }

  /** The loop of `BooleanOperatorOR.getValue`. */
  function OrAll(vals: seq<BooleanValue>): BooleanValue
    requires |vals| > 0
  {
    if |vals| == 1 then vals[0] else Or(OrAll(vals[..|vals| - 1]), vals[|vals| - 1])
  }

  /** A conjunction is FALSE iff some operand is, TRUE iff all are, and DONT_CARE otherwise. */
  lemma {:induction false} AndAllMeaning(vals: seq<BooleanValue>)
    requires |vals| > 0
    ensures AndAll(vals) == FALSE <==> exists i :: 0 <= i < |vals| && vals[i] == FALSE
    ensures AndAll(vals) == TRUE <==> forall i :: 0 <= i < |vals| ==> vals[i] == TRUE
  {
    if |vals| > 1 {
      var init := vals[..|vals| - 1];
      AndAllMeaning(init);
      assert forall i :: 0 <= i < |init| ==> init[i] == vals[i];
    }
  }

  /** A disjunction is TRUE iff some operand is, FALSE iff all are, and DONT_CARE otherwise. */
  lemma {:induction false} OrAllMeaning(vals: seq<BooleanValue>)
    requires |vals| > 0
    ensures OrAll(vals) == TRUE <==> exists i :: 0 <= i < |vals| && vals[i] == TRUE
    ensures OrAll(vals) == FALSE <==> forall i :: 0 <= i < |vals| ==> vals[i] == FALSE
  {
    if |vals| > 1 {
      var init := vals[..|vals| - 1];
      OrAllMeaning(init);
      assert forall i :: 0 <= i < |init| ==> init[i] == vals[i];
    }
  }
}
