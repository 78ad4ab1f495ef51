/** `BooleanVariable`: a named variable whose value is set in place. */
module Variables {
  import opened Values

  class BooleanVariable {
    /** Read-only name; variables are told apart by it. */
    const name: string
    var value: BooleanValue

    /** A new variable starts out FALSE. */
    constructor (name: string)
      ensures this.name == name && value == FALSE
    {
      this.name := name;
      value := FALSE;
    }

    method SetValue(value: BooleanValue)
      modifies this
      ensures this.value == value
    {
      this.value := value;
    }

    /** `equals`: the same object, or another variable with the same name; the value plays no part. */
    predicate Equals(other: BooleanVariable)
      ensures Equals(other) <==> name == other.name
    {
      this == other || name == other.name
    }

    /** `clone`: a new variable with the same name and the current value. */
    method Clone() returns (c: BooleanVariable)
      ensures fresh(c) && c.name == name && c.value == value
    {
      c := new BooleanVariable(name);
      c.SetValue(value);
    }
  }

  /** `equals` on variables is an equivalence that ignores values. */
  lemma EqualsIsEquivalence(x: BooleanVariable, y: BooleanVariable, z: BooleanVariable)
    ensures x.Equals(x)
    ensures x.Equals(y) ==> y.Equals(x)
    ensures x.Equals(y) && y.Equals(z) ==> x.Equals(z)
  {
  }
}
