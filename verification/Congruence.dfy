/** Integers modulo the prime of Curve25519 (RFC 8032, section 5.1). */
module Congruence {
  /** 2^255 - 19 */
  const P: int := 0x7fffffffffffffffffffffffffffffffffffffffffffffffffffffffffffffed

  /** The representative of x in 0..P. */
  function Residue(x: int): int
    decreases if x < 0 then P - x else x
  {
    if 0 <= x < P then x else if x < 0 then Residue(x + P) else Residue(x - P)
  }

  /** a and b have the same residue. */
  ghost predicate Cong(a: int, b: int) {
    Residue(a) == Residue(b)
  }

  lemma {:induction false} ResidueMod(x: int)
    ensures Residue(x) == x % P
    decreases if x < 0 then P - x else x
  {
    if x < 0 {
      ResidueMod(x + P);
      ModuloShift(x, 1);
    } else if x >= P {
      ResidueMod(x - P);
      ModuloShift(x, -1);
    }
  }

  lemma ModuloShift(x: int, k: int)
    ensures x % P == (x + k * P) % P
  {
    ResidueUnique(x + k * P, x / P + k, x % P);
  }

  lemma CongBy(a: int, b: int, k: int)
    requires a - b == k * P
    ensures Cong(a, b)
  {
    ResidueMod(a);
    ResidueMod(b);
    ModuloShift(b, k);
  }

  lemma Quotient(a: int, b: int) returns (k: int)
    requires Cong(a, b)
    ensures a == b + k * P
  {
    ResidueMod(a);
    ResidueMod(b);
    k := a / P - b / P;
  }

  lemma CongRefl(a: int)
    ensures Cong(a, a)
  {
    CongBy(a, a, 0);
  }

  lemma CongTrans(a: int, b: int, c: int)
    requires Cong(a, b) && Cong(b, c)
    ensures Cong(a, c)
  {
    var k := Quotient(a, b);
    var m := Quotient(b, c);
    CongBy(a, c, k + m);
  }

  lemma CongSym(a: int, b: int)
    requires Cong(a, b)
    ensures Cong(b, a)
  {
    var k := Quotient(a, b);
    CongBy(b, a, -k);
  }

  lemma CongAdd(a: int, a': int, b: int, b': int)
    requires Cong(a, a') && Cong(b, b')
    ensures Cong(a + b, a' + b')
    ensures Cong(a - b, a' - b')
  {
    var k := Quotient(a, a');
    var m := Quotient(b, b');
    CongBy(a + b, a' + b', k + m);
    CongBy(a - b, a' - b', k - m);
  }

  lemma CongMul(a: int, a': int, b: int, b': int)
    requires Cong(a, a') && Cong(b, b')
    ensures Cong(a * b, a' * b')
  {
    var k := Quotient(a, a');
    var m := Quotient(b, b');
    assert a * b - a' * b' == (k * b + a' * m) * P by {
      assert a * b == (a' + k * P) * b == a' * b + (k * b) * P;
      assert a' * b == a' * (b' + m * P) == a' * b' + (a' * m) * P;
    }
    CongBy(a * b, a' * b', k * b + a' * m);
  }

  lemma SameResidue(a: int, b: int)
    ensures Cong(a, b) <==> a % P == b % P
  {
    ResidueMod(a);
    ResidueMod(b);
  }

  lemma ResidueUnique(a: int, q: int, r: int)
    requires a == q * P + r && 0 <= r < P
    ensures a % P == r
  {
    var q', r' := a / P, a % P;
    assert (q - q') * P == r' - r;
  }

  lemma ResidueCong(a: int, b: int)
    ensures Cong(a, b) <==> Residue(a) == Residue(b)
  {
    ResidueMod(a);
    ResidueMod(b);
    SameResidue(a, b);
  }
}
