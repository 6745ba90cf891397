/** Square roots modulo P as ge_frombytes_negate_vartime takes them (RFC 8032, section 5.1.3). */
module Root {
  import opened Bytes
  import opened Congruence
  import opened Edwards
  import opened FePow

  /** (P - 5) / 8 */
  function RootExponent(): nat { Pow2(252) - 3 }

  /** (P - 1) / 4 */
  function QuarterExponent(): nat { 2 * RootExponent() + 1 }

  lemma Exponents()
    ensures 4 * QuarterExponent() == P - 1 && Pow2(255) - 21 + 1 == 4 * QuarterExponent()
  {
    hide Pow2;
    Powers();
    SmallPowers();
    Pow2Add(24, 24);
    Pow2Add(48, 8);
    Pow2Add(56, 6);
    Pow2Add(62, 1);
    Pow2Add(63, 63);
    Pow2Add(126, 126);
    Pow2Add(252, 3);
  }

  ghost predicate NoZeroDivisors(a: int, b: int) {
    Cong(a * b, 0) ==> Cong(a, 0) || Cong(b, 0)
  }

  /** z^(P - 1) is 1 unless z is 0. */
  ghost predicate Fermat(z: int) {
    Cong(z, 0) || Cong(Pow(z, 4 * QuarterExponent()), 1)
  }

  /** What the primality of P gives: no zero divisors, and Fermat's little theorem. */
  ghost predicate PrimeField() {
    (forall a, b :: NoZeroDivisors(a, b)) && (forall z :: Fermat(z))
  }

  lemma {:induction false} PowCong(a: int, b: int, e: nat)
    requires Cong(a, b)
    ensures Cong(Pow(a, e), Pow(b, e))
  {
    if e == 0 {
      CongRefl(1);
    } else {
      PowCong(a, b, e - 1);
      CongMul(a, b, Pow(a, e - 1), Pow(b, e - 1));
    }
  }

  lemma {:induction false} PowSquare(z: int, e: nat)
    ensures Pow(z * z, e) == Pow(z, 2 * e)
  {
    if e > 0 {
      PowSquare(z, e - 1);
      assert Pow(z, 2 * e) == z * Pow(z, 2 * e - 1) == z * (z * Pow(z, 2 * e - 2));
      assert (z * z) * Pow(z, 2 * (e - 1)) == z * (z * Pow(z, 2 * (e - 1)));
    }
  }

  function Cube(v: int): int { (v * v) * v }

  function Seventh(v: int): int { (Cube(v) * Cube(v)) * v }

  /** u v^3 (u v^7)^((P - 5) / 8) */
  function Candidate(u: int, v: int): int {
    (Pow(Seventh(v) * u, RootExponent()) * Cube(v)) * u
  }

  /** v x^2 = u (u v^7)^((P - 1) / 4) for the candidate x. */
  lemma CandidateSquare(u: int, v: int)
    ensures v * (Candidate(u, v) * Candidate(u, v)) == u * Pow(Seventh(v) * u, QuarterExponent())
  {
    hide Pow2, RootExponent;
    var w, e := Seventh(v) * u, RootExponent();
    PowAdd(w, e, e);
    PowAdd(w, 2 * e, 1);
    assert Pow(w, 1) == w * Pow(w, 0) == w;
    SquareIdentity(Pow(w, e), Cube(v), u, v);
    assert Pow(w, e) * Pow(w, e) == Pow(w, 2 * e);
    assert Pow(w, 2 * e) * w == Pow(w, QuarterExponent());
  }

  lemma SquareIdentity(p: int, c: int, u: int, v: int)
    ensures v * (((p * c) * u) * ((p * c) * u)) == u * ((p * p) * (((c * c) * v) * u))
  {}

  lemma Factors(u: int, v: int, x: int)
    requires Cong(v * (x * x), u)
    ensures Cong(Seventh(v) * u, ((v * v) * (v * v) * x) * ((v * v) * (v * v) * x))
  {
    hide Cong;
    CongSym(v * (x * x), u);
    Scale(Seventh(v), u, v * (x * x));
    EighthIdentity(v, x);
  }

  lemma EighthIdentity(v: int, x: int)
    ensures Seventh(v) * (v * (x * x)) == ((v * v) * (v * v) * x) * ((v * v) * (v * v) * x)
  {}

  /** A square to the (P - 1) / 4 is 1 or -1. */
  lemma QuarterPower(w: int, z: int)
    requires PrimeField() && Cong(w, z * z) && !Cong(z, 0)
    ensures Cong(Pow(w, QuarterExponent()), 1) || Cong(Pow(w, QuarterExponent()), -1)
  {
    hide Cong, Pow2, Pow, QuarterExponent;
    var e := QuarterExponent();
    PowCong(w, z * z, e);
    PowSquare(z, e);
    var g := Pow(z, 2 * e);
    PowAdd(z, 2 * e, 2 * e);
    assert Fermat(z);
    assert Cong(g * g, 1);
    CongRefl(1);
    CongAdd(g * g, 1, 1, 1);
    assert g * g - 1 == (g - 1) * (g + 1);
    assert NoZeroDivisors(g - 1, g + 1);
    if Cong(g - 1, 0) {
      CongAdd(g - 1, 0, 1, 1);
      CongTrans(Pow(w, e), g, 1);
    } else {
      CongAdd(g + 1, 0, 1, 1);
      CongTrans(Pow(w, e), g, -1);
    }
  }

  lemma ZeroTimes(a: int, b: int)
    requires Cong(a, 0)
    ensures Cong(b * a, 0) && Cong(a * b, 0)
  {
    Scale(b, a, 0);
    assert a * b == b * a;
  }

  lemma ZeroSquare(a: int)
    requires PrimeField() && Cong(a * a, 0)
    ensures Cong(a, 0)
  {
    assert NoZeroDivisors(a, a);
  }

  /** If v^4 x is 0 then so is v x^2. */
  lemma ZeroRoot(v: int, x: int)
    requires PrimeField() && Cong((v * v) * (v * v) * x, 0)
    ensures Cong(v * (x * x), 0)
  {
    hide Cong, PrimeField;
    ZeroFactor((v * v) * (v * v), x);
    if Cong(x, 0) {
      ZeroTimes(x, x);
      ZeroTimes(x * x, v);
    } else {
      ZeroSquare(v * v);
      ZeroSquare(v);
      ZeroTimes(v, x * x);
    }
  }

  lemma ZeroFactor(a: int, b: int)
    requires PrimeField() && Cong(a * b, 0)
    ensures Cong(a, 0) || Cong(b, 0)
  {
    assert NoZeroDivisors(a, b);
  }

  /** If u / v has a root, the candidate is a root of u / v or of -u / v. */
  lemma CandidateWorks(u: int, v: int, x: int)
    requires PrimeField() && Cong(v * (x * x), u)
    ensures var c := Candidate(u, v); Cong(v * (c * c), u) || Cong(v * (c * c), -u)
  {
    hide Cong, PrimeField, Candidate, Pow, QuarterExponent;
    var z, w := (v * v) * (v * v) * x, Seventh(v) * u;
    var g := Pow(w, QuarterExponent());
    CandidateSquare(u, v);
    if Cong(z, 0) {
      ZeroRoot(v, x);
      CongSym(v * (x * x), u);
      CongTrans(u, v * (x * x), 0);
      ZeroTimes(u, g);
      CongSym(u, 0);
      CongTrans(u * g, 0, u);
    } else {
      Factors(u, v, x);
      QuarterPower(w, z);
      if Cong(g, 1) { Scale(u, g, 1); } else { Scale(u, g, -1); }
    }
  }

  /** A square root of -1. */
  const I: int := 0x2b8324804fc1df0b2b4d00993dfbd7a72f431806ad2fe478c4ee1b274a0ea0b0

  lemma RootOfMinusOne()
    ensures Cong(I * I, -1)
  {
    CongBy(I * I, -1, (I * I + 1) / P);
  }

  /** Multiplying by a root of -1 turns a root of -u / v into a root of u / v. */
  lemma OtherRoot(u: int, v: int, x: int, i: int, xi: int)
    requires Cong(v * (x * x), -u) && Cong(i * i, -1) && Cong(xi, x * i)
    ensures Cong(v * (xi * xi), u)
  {
    hide *;
    CongMul(xi, x * i, xi, x * i);
    Regroup(x, i, x, i);
    Scale(v, xi * xi, (x * x) * (i * i));
    CongMul(v * (x * x), -u, i * i, -1);
    assert v * ((x * x) * (i * i)) == (v * (x * x)) * (i * i);
    CongTrans(v * (xi * xi), (v * (x * x)) * (i * i), u);
  }

  /** v x^2 = u, with u = y^2 - 1 and v = d y^2 + 1, is the curve equation. */
  lemma CurveEquation(u: int, v: int, x: int, y: int)
    requires Cong(u, y * y - 1) && Cong(v, D * (y * y) + 1)
    ensures Cong(v * (x * x), u) <==> OnCurve(Point(x, y))
  {
    hide Cong;
    Scale(x * x, v, D * (y * y) + 1);
    assert (x * x) * v == v * (x * x);
    var f := D * ((x * x) * (y * y)) + x * x;
    assert (x * x) * (D * (y * y) + 1) == f by { CurveIdentity(D, x * x, y * y); }
    CongRefl(1);
    CongRefl(x * x);
    if Cong(v * (x * x), u) {
      CongSym(v * (x * x), f);
      CongTrans(f, v * (x * x), u);
      CongTrans(f, u, y * y - 1);
      CongAdd(f, y * y - 1, 1, 1);
      CongAdd(f + 1, y * y, x * x, x * x);
      CongSym(f + 1 - x * x, y * y - x * x);
    } else if OnCurve(Point(x, y)) {
      CongAdd(y * y - x * x, 1 + D * ((x * x) * (y * y)), x * x, x * x);
      CongAdd(y * y, 1 + f, 1, 1);
      CongTrans(u, y * y - 1, f);
      CongSym(u, f);
      CongTrans(v * (x * x), f, u);
    }
  }

  lemma CurveIdentity(d: int, a: int, b: int)
    ensures a * (d * b + 1) == d * (a * b) + a
  {}
}
