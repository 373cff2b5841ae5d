/** Floor division and remainder of natural numbers, with the facts about carried remainders, wrapping sums and aligned
    blocks that the clocks, counters and addresses need. */
module Arithmetic {

  function Quot(x: nat, p: nat): nat
    requires p > 0
  {
    x / p
  }

  function Rem(x: nat, p: nat): (r: nat)
    requires p > 0
    ensures r < p
  {
    x % p
  }

  lemma Quotient(x: nat, p: nat)
    requires p > 0
    ensures x == Quot(x, p) * p + Rem(x, p)
  {
  }

  lemma Distributes(a: int, b: int, p: int)
    ensures (a + b) * p == a * p + b * p
  {
  }

  lemma NonzeroMultiple(d: int, p: nat)
    ensures d >= 1 ==> d * p >= p
    ensures d <= -1 ==> d * p + p <= 0
  {
  }

  lemma DivisionIsUnique(x: nat, p: nat, q: nat, m: nat)
    requires p > 0 && x == q * p + m && m < p
    ensures Quot(x, p) == q && Rem(x, p) == m
  {
    hide Quot, Rem;
    var d := Quot(x, p) - q;
    Quotient(x, p);
    Distributes(d, q, p);
    NonzeroMultiple(d, p);
  }

  /** Two floor divisions with a carried remainder are one floor division of the sum. */
  lemma CarriedDivision(r: nat, a: nat, b: nat, p: nat)
    requires p > 0
    ensures Quot(r + a, p) + Quot(Rem(r + a, p) + b, p) == Quot(r + a + b, p)
    ensures Rem(Rem(r + a, p) + b, p) == Rem(r + a + b, p)
  {
    hide Quot, Rem;
    var q, m := Quot(r + a, p), Rem(r + a, p);
    var q2, m2 := Quot(m + b, p), Rem(m + b, p);
    Quotient(r + a, p);
    Quotient(m + b, p);
    Distributes(q, q2, p);
    DivisionIsUnique(r + a + b, p, q + q2, m2);
  }

  lemma WrappedSum(x: nat, a: nat, b: nat, n: nat)
    requires n > 0
    ensures Rem(Rem(x + a, n) + b, n) == Rem(x + a + b, n)
  {
    CarriedDivision(x, a, b, n);
  }

  lemma NextQuotient(x: nat, m: nat)
    requires m > 0
    ensures Quot(x + 1, m) == Quot(x, m) + if Rem(x, m) + 1 == m then 1 else 0
    ensures Rem(x + 1, m) == if Rem(x, m) + 1 == m then 0 else Rem(x, m) + 1
  {
    hide Quot, Rem;
    var q, r := Quot(x, m), Rem(x, m);
    Quotient(x, m);
    if r + 1 == m {
      Distributes(q, 1, m);
      DivisionIsUnique(x + 1, m, q + 1, 0);
    } else {
      DivisionIsUnique(x + 1, m, q, r + 1);
    }
  }

  lemma Smaller(x: nat, p: nat)
    requires x < p
    ensures Rem(x, p) == x && Quot(x, p) == 0
  {
    DivisionIsUnique(x, p, 0, x);
  }

  /** Positions less than one block length apart have different remainders. */
  lemma NearbyRemaindersDiffer(x: nat, d: nat, p: nat)
    requires 0 < d < p
    ensures Rem(x, p) != Rem(x + d, p)
  {
    hide Quot, Rem;
    var k := Quot(x + d, p) - Quot(x, p);
    Quotient(x, p);
    Quotient(x + d, p);
    Distributes(k, Quot(x, p), p);
    NonzeroMultiple(k, p);
  }

  lemma Product(a: nat, b: nat, p: nat)
    requires a < b
    ensures a * p + p <= b * p
  {
    Distributes(a, b - a, p);
    NonzeroMultiple(b - a, p);
  }

  /** Block j of length p in a space of m blocks: an offset inside the block stays inside its place in the space. */
  lemma BlockInSpace(j: nat, p: nat, m: nat, o: nat)
    requires p > 0 && m > 0 && m * p > 0 && o < p
    ensures Rem(j * p + o, m * p) == Rem(j, m) * p + o
    ensures Rem(j * p, m * p) == Rem(j, m) * p && Rem(j, m) * p + p <= m * p
  {
    hide Quot, Rem;
    var q, r := Quot(j, m), Rem(j, m);
    Quotient(j, m);
    Distributes(q * m, r, p);
    Associates(q, m, p);
    Product(r, m, p);
    DivisionIsUnique(j * p + o, m * p, q, r * p + o);
    DivisionIsUnique(j * p, m * p, q, r * p);
  }

  lemma Associates(a: nat, b: nat, c: nat)
    ensures a * b * c == a * (b * c)
  {
  }

  /** Reducing first by a multiple of n changes nothing modulo n. */
  lemma CoarserRemainder(x: nat, n: nat, k: nat)
    requires n > 0 && k > 0 && k * n > 0
    ensures Rem(Rem(x, k * n), n) == Rem(x, n)
  {
    hide Quot, Rem;
    var q, r := Quot(x, k * n), Rem(x, k * n);
    Quotient(x, k * n);
    Quotient(r, n);
    Associates(q, k, n);
    Distributes(q * k, Quot(r, n), n);
    DivisionIsUnique(x, n, q * k + Quot(r, n), Rem(r, n));
  }
}
