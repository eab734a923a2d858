/** Remainders of sums, for ring indices. */
module Modular {
  lemma {:induction false} MulStep(c: nat, a: nat, b: nat)
    requires a < b
    ensures c * a + c <= c * b
  {
    assert c * b == c * (b - 1) + c;
    if a < b - 1 {
      MulStep(c, a, b - 1);
    }
  }

  lemma DivMod(x: nat, c: nat) returns (q: nat, r: nat)
    requires c > 0
    ensures q == x / c && r == x % c && x == c * q + r && r < c
  {
    q, r := x / c, x % c;
  }

  /** There is one way to write a number as a multiple of `c` and a remainder. */
  lemma SplitUnique(c: nat, q: nat, r: nat, q': nat, r': nat)
    requires r < c && r' < c && c * q + r == c * q' + r'
    ensures q == q' && r == r'
  {
    if q < q' {
      MulStep(c, q, q');
    } else if q' < q {
      MulStep(c, q', q);
    }
  }

  lemma ModUnique(x: nat, c: nat, q: nat, r: nat)
    requires x == c * q + r && r < c
    ensures x % c == r && x / c == q
  {
    var q', r' := DivMod(x, c);
    SplitUnique(c, q, r, q', r');
  }

  lemma Distribute(c: nat, q: nat, p: nat)
    ensures c * (q + p) == c * q + c * p
  {
  }

  lemma ModAdd(x: nat, y: nat, c: nat)
    requires c > 0
    ensures (x % c + y) % c == (x + y) % c
  {
    var q, a := DivMod(x, c);
    var p, r := DivMod(a + y, c);
    Distribute(c, q, p);
    ModUnique(x + y, c, q + p, r);
  }

  /** Numbers less than `c` apart have different remainders. */
  lemma ModDiffer(x: nat, y: nat, c: nat)
    requires x < y < x + c
    ensures x % c != y % c
  {
    var p, a := DivMod(x, c);
    var q, b := DivMod(y, c);
    if a == b {
      if p < q {
        MulStep(c, p, q);
      } else if q < p {
        MulStep(c, q, p);
      }
    }
  }
}
