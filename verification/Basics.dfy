/** What the other modules share: an optional value, two facts about sequences, and one about division. */
module Basics {
  datatype Option<+T> = None | Some(value: T)

  lemma Assoc<T>(a: seq<T>, b: seq<T>, c: seq<T>)
    ensures (a + b) + c == a + (b + c)
  {
  }

  lemma Snoc<T>(s: seq<T>, x: T)
    ensures (s + [x])[..|s + [x]| - 1] == s && (s + [x])[|s + [x]| - 1] == x
  {
  }

  lemma AtLeastOnce(m: nat, k: nat)
    requires k > 0
    ensures m * k >= m
  {
  }

  lemma OneSplitting(m: nat, q: int, r: nat, p: int, t: nat)
    requires r < m && t < m && m * q + r == m * p + t
    ensures q == p && r == t
  {
    if q < p {
      assert m * (p - q) == m * p - m * q;
      AtLeastOnce(m, p - q);
    } else if p < q {
      assert m * (q - p) == m * q - m * p;
      AtLeastOnce(m, q - p);
    }
  }

  /** Quotient and remainder are known by what they add up to. */
  lemma DivModIs(a: int, m: nat, q: int, r: nat)
    requires m > 0 && a == m * q + r && r < m
    ensures a / m == q && a % m == r
  {
    OneSplitting(m, q, r, a / m, a % m);
  }
}
