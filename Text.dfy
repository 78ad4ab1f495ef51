/** Strings built by the `toString` methods: character counts and Java's decimal form of an `int`. */
module Text {

  /** The number of times `c` occurs in `s`. */
  function Occurrences(c: char, s: string): nat {
    if s == [] then 0 else (if s[0] == c then 1 else 0) + Occurrences(c, s[1..])
  }

  lemma {:induction false} OccurrencesConcat(c: char, a: string, b: string)
    ensures Occurrences(c, a + b) == Occurrences(c, a) + Occurrences(c, b)
  {
    if a == [] {
      assert a + b == b;
    } else {
      assert (a + b)[0] == a[0] && (a + b)[1..] == a[1..] + b;
      OccurrencesConcat(c, a[1..], b);
    }
  }

  /** A piece in which `c` does not occur adds nothing to the count. */
  lemma OccurrencesAround(c: char, a: string, b: string, d: string)
    requires Occurrences(c, b) == 0
    ensures Occurrences(c, a + b + d) == Occurrences(c, a) + Occurrences(c, d)
  {
    OccurrencesConcat(c, a, b);
    OccurrencesConcat(c, a + b, d);
  }

  /** The decimal digits of a natural number, without leading zeros. */
  function NatDigits(n: nat): (r: string)
    ensures r != [] && forall i :: 0 <= i < |r| ==> '0' <= r[i] <= '9'
  {
    var d := ['0' + (n % 10) as char];
    if n < 10 then d else NatDigits(n / 10) + d
  }

  /** `Integer.toString`: the digits, after a minus sign for a negative number. */
  function Decimal(n: int): string {
    if n < 0 then "-" + NatDigits(-n) else NatDigits(n)
  }

  /** A character that is neither a digit nor a minus sign does not occur in a decimal number. */
  lemma DecimalWithout(c: char, n: int)
    requires c != '-' && !('0' <= c <= '9')
    ensures Occurrences(c, Decimal(n)) == 0
  {
    var digits := NatDigits(if n < 0 then -n else n);
    DigitsWithout(c, digits);
    if n < 0 {
      OccurrencesConcat(c, "-", digits);
    }
  }

  lemma {:induction false} DigitsWithout(c: char, s: string)
    requires !('0' <= c <= '9') && forall i :: 0 <= i < |s| ==> '0' <= s[i] <= '9'
    ensures Occurrences(c, s) == 0
  {
    if s != [] {
      DigitsWithout(c, s[1..]);
    }
  }
}
