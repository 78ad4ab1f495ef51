/** Counting the indexes below a bound that satisfy a condition. */
module Counting {

  /** Number of k < n with f(k). */
  function Count(n: nat, f: nat -> bool): nat {
    if n == 0 then 0 else Count(n - 1, f) + (if f(n - 1) then 1 else 0)
  }

  lemma {:induction false} CountBound(n: nat, f: nat -> bool)
    ensures Count(n, f) <= n
  {
    if n > 0 {
      CountBound(n - 1, f);
    }
  }

  lemma {:induction false} CountZero(n: nat, f: nat -> bool)
    requires Count(n, f) == 0
    ensures forall k :: 0 <= k < n ==> !f(k)
  {
    if n > 0 {
      CountZero(n - 1, f);
    }
  }

  lemma {:induction false} CountAll(n: nat, f: nat -> bool)
    requires forall k :: 0 <= k < n ==> f(k)
    ensures Count(n, f) == n
  {
    if n > 0 {
      CountAll(n - 1, f);
    }
  }

  /** A count that reaches its bound leaves no index out. */
  lemma {:induction false} CountFull(n: nat, f: nat -> bool)
    requires Count(n, f) == n
    ensures forall k :: 0 <= k < n ==> f(k)
  {
    if n > 0 {
      CountBound(n - 1, f);
      CountFull(n - 1, f);
    }
  }

  lemma {:induction false} CountPositive(n: nat, f: nat -> bool, k: nat)
    requires k < n && f(k)
    ensures Count(n, f) >= 1
  {
    if k < n - 1 {
      CountPositive(n - 1, f, k);
    }
  }

  /** Exactly one k < n satisfies f when the count is one. */
  lemma {:induction false} CountOne(n: nat, f: nat -> bool) returns (p: nat)
    requires Count(n, f) == 1
    ensures p < n && f(p)
    ensures forall q :: 0 <= q < n && q != p ==> !f(q)
  {
    if f(n - 1) {
      CountZero(n - 1, f);
      p := n - 1;
    } else {
      p := CountOne(n - 1, f);
    }
  }

  /** Two or more distinct witnesses give a count of at least two. */
  lemma {:induction false} CountTwo(n: nat, f: nat -> bool, i: nat, j: nat)
    requires i < j < n && f(i) && f(j)
    ensures Count(n, f) >= 2
  {
    if j < n - 1 {
      CountTwo(n - 1, f, i, j);
    } else {
      CountPositive(n - 1, f, i);
    }
  }

  lemma {:induction false} CountMonotone(i: nat, n: nat, f: nat -> bool)
    requires i <= n
    ensures Count(i, f) <= Count(n, f)
  {
    if i < n {
      CountMonotone(i, n - 1, f);
    }
  }

  /** Counting a weaker condition gives at least as much. */
  lemma {:induction false} CountImplies(n: nat, f: nat -> bool, g: nat -> bool)
    requires forall k :: 0 <= k < n && f(k) ==> g(k)
    ensures Count(n, f) <= Count(n, g)
  {
    if n > 0 {
      CountImplies(n - 1, f, g);
    }
  }

  /** Counting a condition that splits into two disjoint ones. */
  lemma {:induction false} CountSplit(n: nat, f: nat -> bool, g: nat -> bool, h: nat -> bool)
    requires forall k :: 0 <= k < n ==> (f(k) <==> g(k) || h(k)) && !(g(k) && h(k))
    ensures Count(n, f) == Count(n, g) + Count(n, h)
  {
    if n > 0 {
      CountSplit(n - 1, f, g, h);
    }
  }

  /** Conditions that agree below n have the same count. */
  lemma {:induction false} CountSame(n: nat, f: nat -> bool, g: nat -> bool)
    requires forall k :: 0 <= k < n ==> (f(k) <==> g(k))
    ensures Count(n, f) == Count(n, g)
  {
    if n > 0 {
      CountSame(n - 1, f, g);
    }
  }

  lemma {:induction false} CountNone(n: nat, f: nat -> bool)
    requires forall k :: 0 <= k < n ==> !f(k)
    ensures Count(n, f) == 0
  {
    if n > 0 {
      CountNone(n - 1, f);
    }
  }

  /** A single witness below `n` gives a count of one. */
  lemma {:induction false} CountExactlyOne(n: nat, f: nat -> bool, p: nat)
    requires p < n && f(p)
    requires forall q :: 0 <= q < n && q != p ==> !f(q)
    ensures Count(n, f) == 1
  {
    if p == n - 1 {
      CountNone(n - 1, f);
    } else {
      CountExactlyOne(n - 1, f, p);
    }
  }
}
