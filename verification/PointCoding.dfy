/** Points as byte strings: ge_frombytes_negate_vartime, ge_tobytes and ge_p3_tobytes (src/crypto/ed25519/ge.c). */
module PointCoding {
  import opened Words
  import opened Bytes
  import opened Congruence
  import opened Fe
  import opened FeBytes
  import opened FePow
  import opened Edwards
  import opened Ge
  import opened Root
  import opened PointMath

  const d: Fe := Fe(-10913610, 13857413, -15372611, 6949391, 114729, -8787816, -6275908, -3247719, -18696448, -12055116)

  const sqrtm1: Fe :=
    Fe(-32595792, -7943725, 9377950, 3500415, 12389472, -272473, -25146209, -2005654, 326686, 11406482)

  lemma Constants()
    ensures Tight(d) && Cong(Value(d), D)
    ensures Tight(sqrtm1) && Value(sqrtm1) == I
  {
    Unfold(Limbs(d));
    Unfold(Limbs(sqrtm1));
    CongBy(Value(d), D, -1);
  }

  /** A reduced element plus or minus one. */
  predicate NearTight(f: Fe) { Bounded(f, 33889977, 16944988) }

  lemma NearIsWide(f: Fe)
    requires NearTight(f)
    ensures Wide(f) && Encodable(f)
  {}

  method PlusOne(f: Fe) returns (h: Fe)
    requires Tight(f)
    ensures NearTight(h) && Value(h) == Value(f) + 1
  {
    hide Value;
    h := FeAdd(f, FeOne());
    SmallValues();
  }

  method MinusOne(f: Fe) returns (h: Fe)
    requires Tight(f)
    ensures NearTight(h) && Value(h) == Value(f) - 1
  {
    hide Value;
    h := FeSub(f, FeOne());
    SmallValues();
  }

  /** u = y^2 - 1 and v = d y^2 + 1. */
  method CurveTerms(Y: Fe) returns (u: Fe, v: Fe)
    requires Tight(Y)
    ensures NearTight(u) && NearTight(v)
    ensures Cong(Value(u), Value(Y) * Value(Y) - 1)
    ensures Cong(Value(v), D * (Value(Y) * Value(Y)) + 1)
  {
    hide Value, Cong, Tight, Wide, NearTight, ProductLimbs;
    Constants();
    TightIsWide(Y);
    TightIsWide(d);
    u := FeSq(Y);
    TightIsWide(u);
    v := FeMul(u, d);
    ghost var y2 := Value(Y) * Value(Y);
    CongMul(Value(u), y2, Value(d), D);
    CongTrans(Value(v), Value(u) * Value(d), y2 * D);
    assert y2 * D == D * y2;
    CongRefl(1);
    CongAdd(Value(u), y2, 1, 1);
    CongAdd(Value(v), D * y2, 1, 1);
    u := MinusOne(u);
    v := PlusOne(v);
  }

  /** x = u v^3 (u v^7)^((P - 5) / 8) */
  method RootCandidate(u: Fe, v: Fe) returns (X: Fe)
    requires NearTight(u) && NearTight(v)
    ensures Tight(X) && Cong(Value(X), Candidate(Value(u), Value(v)))
  {
    hide Value, Cong, Tight, Wide, NearTight, Pow, Pow2;
    NearIsWide(u);
    NearIsWide(v);
    ghost var a, b := Value(u), Value(v);
    CongRefl(a);
    CongRefl(b);
    var v3 := Square(v, b);
    v3 := Product(v3, v, b * b, b);
    X := Square(v3, Cube(b));
    X := Product(X, v, Cube(b) * Cube(b), b);
    X := Product(X, u, Seventh(b), a);
    TightIsWide(X);
    ghost var w := Value(X);
    X := FePow22523(X);
    PowCong(w, Seventh(b) * a, RootExponent());
    CongTrans(Value(X), Pow(w, RootExponent()), Pow(Seventh(b) * a, RootExponent()));
    X := Product(X, v3, Pow(Seventh(b) * a, RootExponent()), Cube(b));
    X := Product(X, u, Pow(Seventh(b) * a, RootExponent()) * Cube(b), a);
  }

  /** fe_mul, with the meanings of the factors carried along. */
  method Product(f: Fe, g: Fe, ghost a: int, ghost b: int) returns (h: Fe)
    requires (Tight(f) || NearTight(f)) && (Tight(g) || NearTight(g))
    requires Cong(Value(f), a) && Cong(Value(g), b)
    ensures Tight(h) && Cong(Value(h), a * b)
  {
    hide Value, Cong, ProductLimbs;
    h := FeMul(f, g);
    CongMul(Value(f), a, Value(g), b);
    CongTrans(Value(h), Value(f) * Value(g), a * b);
  }

  /** fe_sq, likewise. */
  method Square(f: Fe, ghost a: int) returns (h: Fe)
    requires (Tight(f) || NearTight(f)) && Cong(Value(f), a)
    ensures Tight(h) && Cong(Value(h), a * a)
  {
    hide Value, Cong, ProductLimbs;
    h := FeSq(f);
    CongMul(Value(f), a, Value(f), a);
    CongTrans(Value(h), Value(f) * Value(f), a * a);
  }

  /** Is vxx == u, exactly? */
  method Same(vxx: Fe, u: Fe) returns (r: bool)
    requires Tight(vxx) && NearTight(u)
    ensures r <==> Cong(Value(vxx), Value(u))
  {
    hide Value, Cong;
    var check := FeSub(vxx, u);
    var nonzero := FeIsNonzero(check);
    r := !nonzero;
    ZeroDifference(Value(vxx), Value(u));
  }

  /** Is vxx == -u, exactly? */
  method Opposite(vxx: Fe, u: Fe) returns (r: bool)
    requires Tight(vxx) && NearTight(u)
    ensures r <==> Cong(Value(vxx), -Value(u))
  {
    hide Value, Cong;
    var check := FeAdd(vxx, u);
    var nonzero := FeIsNonzero(check);
    r := !nonzero;
    ZeroDifference(Value(vxx), -Value(u));
  }

  lemma ZeroDifference(a: int, b: int)
    ensures (a - b) % P == 0 <==> Cong(a, b)
  {
    if Cong(a, b) {
      var k := Quotient(a, b);
      ResidueUnique(a - b, k, 0);
    } else if (a - b) % P == 0 {
      CongBy(a, b, (a - b) / P);
    }
  }

  /** A root of u / v, if there is one. */
  method SquareRoot(u: Fe, v: Fe) returns (ok: bool, X: Fe)
    requires NearTight(u) && NearTight(v)
    ensures ok ==> Tight(X) && Cong(Value(v) * (Value(X) * Value(X)), Value(u))
    ensures !ok && PrimeField() ==> forall x :: !IsRoot(Value(u), Value(v), x)
  {
    hide Value, Cong, Tight, Wide, NearTight, Candidate, PrimeField;
    ghost var a, b := Value(u), Value(v);
    X := RootCandidate(u, v);
    ghost var x := Value(X);
    CongRefl(x);
    CongRefl(b);
    var vxx := Square(X, x);
    vxx := Product(vxx, v, x * x, b);
    assert (x * x) * b == b * (x * x);
    ok := Same(vxx, u);
    if ok {
      SameRoot(Value(vxx), b * (x * x), a);
      return;
    }
    ok := Opposite(vxx, u);
    if ok {
      SameRoot(Value(vxx), b * (x * x), -a);
      Constants();
      CongRefl(I);
      X := Product(X, sqrtm1, x, I);
      RootOfMinusOne();
      OtherRoot(a, b, x, I, Value(X));
    } else {
      NoRoot(a, b, x, Value(vxx));
    }
  }

  ghost predicate IsRoot(u: int, v: int, x: int) { Cong(v * (x * x), u) }

  lemma SameRoot(w: int, vxx: int, u: int)
    requires Cong(w, vxx) && Cong(w, u)
    ensures Cong(vxx, u)
  {
    CongSym(w, vxx);
    CongTrans(vxx, w, u);
  }

  /** When the candidate is a root of neither u / v nor -u / v, there is no root. */
  lemma NoRoot(u: int, v: int, x: int, w: int)
    requires Cong(x, Candidate(u, v)) && Cong(w, v * (x * x)) && !Cong(w, u) && !Cong(w, -u)
    ensures PrimeField() ==> forall r :: !IsRoot(u, v, r)
  {
    hide Cong, Candidate, PrimeField;
    if PrimeField() {
      forall r ensures !IsRoot(u, v, r) {
        if IsRoot(u, v, r) {
          CandidateWorks(u, v, r);
          var c := Candidate(u, v);
          CongMul(x, c, x, c);
          Scale(v, x * x, c * c);
          CongTrans(w, v * (x * x), v * (c * c));
          if Cong(v * (c * c), u) {
            CongTrans(w, v * (c * c), u);
          } else {
            CongTrans(w, v * (c * c), -u);
          }
          assert false;
        }
      }
    }
  }

  /** s[31] >> 7 */
  function SignBit(s: seq<byte>): int
    requires |s| == 32
  {
    s[31] as int / 128
  }

  function Affine(h: P3): Point { Point(Value(h.X), Value(h.Y)) }

  /** The point that s decodes to; it fails only when there is none. */
  method GeFromBytesNegate(s: seq<byte>) returns (ok: bool, h: P3)
    requires |s| == 32
    ensures ok ==> RepP3(h, Affine(h)) && Decoded(s, Affine(h))
    ensures !ok && PrimeField() ==> forall a :: !Decoded(s, a)
  {
    hide Value, Cong, Tight, Wide, NearTight, LittleEndian, PrimeField, OnCurve, ProductLimbs;
    var Y := FeFromBytes(s);
    var u, v := CurveTerms(Y);
    var X;
    ok, X := SquareRoot(u, v);
    if !ok {
      h := P3(Y, Y, Y, Y);
      NoPoint(s, Value(u), Value(v), Value(Y));
      return;
    }
    CurveEquation(Value(u), Value(v), Value(X), Value(Y));
    X := FixSign(X, SignBit(s), Value(Y));
    TightIsWide(X);
    TightIsWide(Y);
    var T := FeMul(X, Y);
    h := P3(X, Y, FeOne(), T);
    AffineRep(h);
  }

  lemma NoPoint(s: seq<byte>, u: int, v: int, y: int)
    requires |s| == 32 && Cong(u, y * y - 1) && Cong(v, D * (y * y) + 1) && Cong(y, LittleEndian(s) % TOP)
    requires PrimeField() ==> forall x :: !IsRoot(u, v, x)
    ensures PrimeField() ==> forall a :: !Decoded(s, a)
  {
    hide Cong, PrimeField, OnCurve, LittleEndian;
    if PrimeField() {
      forall a ensures !Decoded(s, a) {
        assert !IsRoot(u, v, a.x);
        CurveEquation(u, v, a.x, y);
        if Decoded(s, a) {
          CongSym(y, LittleEndian(s) % TOP);
          CongTrans(a.y, LittleEndian(s) % TOP, y);
          CongRefl(a.x);
          SameCurve(a, Point(a.x, y));
          assert false;
        }
      }
    }
  }

  lemma SameCurve(a: Point, b: Point)
    requires SamePoint(a, b) && OnCurve(a)
    ensures OnCurve(b)
  {
    hide Cong;
    CongSym(a.x, b.x);
    CongSym(a.y, b.y);
    CongMul(a.x, b.x, a.x, b.x);
    CongMul(a.y, b.y, a.y, b.y);
    CongMul(a.x * a.x, b.x * b.x, a.y * a.y, b.y * b.y);
    Scale(D, (a.x * a.x) * (a.y * a.y), (b.x * b.x) * (b.y * b.y));
    CongRefl(1);
    CongAdd(1, 1, D * ((a.x * a.x) * (a.y * a.y)), D * ((b.x * b.x) * (b.y * b.y)));
    CongAdd(a.y * a.y, b.y * b.y, a.x * a.x, b.x * b.x);
    CongSym(a.y * a.y - a.x * a.x, b.y * b.y - b.x * b.x);
    CongTrans(b.y * b.y - b.x * b.x, a.y * a.y - a.x * a.x, 1 + D * ((a.x * a.x) * (a.y * a.y)));
    CongTrans(b.y * b.y - b.x * b.x, 1 + D * ((a.x * a.x) * (a.y * a.y)), 1 + D * ((b.x * b.x) * (b.y * b.y)));
  }

  /** Negate the root when its parity is the sign bit. */
  method FixSign(X: Fe, sign: int, ghost y: int) returns (h: Fe)
    requires Tight(X) && OnCurve(Point(Value(X), y))
    ensures Tight(h) && OnCurve(Point(Value(h), y))
    ensures Residue(Value(h)) != 0 ==> Residue(Value(h)) % 2 != sign
  {
    hide Value, Cong, Residue;
    var negative := FeIsNegative(X);
    ResidueMod(Value(X));
    h := X;
    if negative == sign {
      h := FeNeg(X);
      NegatedParity(Value(X));
      assert (-Value(X)) * (-Value(X)) == Value(X) * Value(X);
    }
  }

  lemma NegatedParity(x: int)
    ensures Residue(-x) != 0 ==> Residue(-x) % 2 != Residue(x) % 2
    ensures Residue(-x) == 0 <==> Residue(x) == 0
  {
    hide Residue;
    ResidueMod(x);
    ResidueMod(-x);
    var q, r := x / P, x % P;
    if r == 0 {
      ResidueUnique(-x, -q, 0);
    } else {
      ResidueUnique(-x, -q - 1, P - r);
    }
  }

  lemma AffineRep(h: P3)
    requires Tight(h.X) && Tight(h.Y) && h.Z == FeOne() && Tight(h.T) && Cong(Value(h.T), Value(h.X) * Value(h.Y))
    ensures RepP3(h, Affine(h))
  {
    hide Value, Cong, Tight, Unit;
    SmallValues();
    UnitOne();
    CongRefl(Value(h.X));
    CongRefl(Value(h.Y));
  }

  lemma OneIsNotZero()
    ensures !Cong(1, 0)
  {
    SameResidue(1, 0);
  }

  /** d y^2 + 1 is not zero for a point of the curve. */
  lemma DenominatorNotZero(a: Point)
    requires PrimeField() && OnCurve(a)
    ensures !Cong(D * (a.y * a.y) + 1, 0)
  {
    hide Cong, PrimeField, OnCurve;
    var y2 := a.y * a.y;
    var u, v := y2 - 1, D * y2 + 1;
    if Cong(v, 0) {
      CongRefl(u);
      CongRefl(v);
      CongRefl(1);
      CurveEquation(u, v, a.x, a.y);
      ZeroTimes(v, a.x * a.x);
      CongSym(v * (a.x * a.x), u);
      CongTrans(u, v * (a.x * a.x), 0);
      CongAdd(u, 0, 1, 1);
      Scale(D, y2, 1);
      CongAdd(D * y2, D, 1, 1);
      NotMinusOne(v);
      assert false;
    }
  }

  lemma NotMinusOne(v: int)
    requires Cong(v, D + 1)
    ensures !Cong(v, 0)
  {
    hide Cong;
    if Cong(v, 0) {
      CongSym(v, D + 1);
      CongTrans(D + 1, v, 0);
      Scale(121666, D + 1, 0);
      CurveConstant();
      CongRefl(121666);
      CongAdd(121666 * D, -121665, 121666, 121666);
      CongSym(121666 * (D + 1), 1);
      CongTrans(1, 121666 * (D + 1), 0);
      OneIsNotZero();
      assert false;
    }
  }

  /** Points of the curve with the same y have the same x up to sign. */
  lemma SameHeight(a: Point, b: Point)
    requires PrimeField() && OnCurve(a) && OnCurve(b) && Cong(a.y, b.y)
    ensures Cong(a.x, b.x) || Cong(a.x, -b.x)
  {
    hide Cong, PrimeField, OnCurve;
    CongSym(a.y, b.y);
    CongRefl(b.x);
    SameCurve(b, Point(b.x, a.y));
    var u, v := a.y * a.y - 1, D * (a.y * a.y) + 1;
    CongRefl(u);
    CongRefl(v);
    CurveEquation(u, v, a.x, a.y);
    CurveEquation(u, v, b.x, a.y);
    CongAdd(v * (a.x * a.x), u, v * (b.x * b.x), u);
    DifferenceOfSquares(v, a.x, b.x);
    DenominatorNotZero(a);
    ZeroFactor(v, (a.x - b.x) * (a.x + b.x));
    ZeroFactor(a.x - b.x, a.x + b.x);
    if Cong(a.x - b.x, 0) {
      CongAdd(a.x - b.x, 0, b.x, b.x);
    } else {
      CongAdd(a.x + b.x, 0, b.x, b.x);
    }
  }

  lemma DifferenceOfSquares(v: int, x: int, z: int)
    ensures v * (x * x) - v * (z * z) == v * ((x - z) * (x + z))
  {}

  /** The 32-byte encoding of a point: y, and the parity of x in the top bit (RFC 8032, section 5.1.2). */
  function Encoding(a: Point): int { Residue(a.y) + TOP * (Residue(a.x) % 2) }

  /** a is a point that s decodes to: on the curve, with the encoded y and, unless it is zero, an x
      whose parity is not the encoded one. */
  ghost predicate Decoded(s: seq<byte>, a: Point)
    requires |s| == 32
  {
    OnCurve(a) && Cong(a.y, LittleEndian(s) % TOP) && (Residue(a.x) != 0 ==> Residue(a.x) % 2 != SignBit(s))
  }

  /** There is at most one such point. */
  lemma DecodedUnique(s: seq<byte>, a: Point, b: Point)
    requires |s| == 32 && PrimeField() && Decoded(s, a) && Decoded(s, b)
    ensures SamePoint(a, b)
  {
    hide Cong, PrimeField, OnCurve, LittleEndian, Residue;
    CongSym(b.y, LittleEndian(s) % TOP);
    CongTrans(a.y, LittleEndian(s) % TOP, b.y);
    SameHeight(a, b);
    if !Cong(a.x, b.x) {
      ResidueCong(a.x, -b.x);
      NegatedParity(b.x);
      ResidueMod(0);
      ResidueCong(a.x, 0);
      Scale(-1, a.x, -b.x);
      CongSym(-a.x, b.x);
      Scale(-1, a.x, 0);
      CongTrans(b.x, -a.x, 0);
      CongSym(b.x, 0);
      CongTrans(a.x, 0, b.x);
    }
  }

  /** Decoding the encoding of -a gives a. */
  lemma EncodedIsDecoded(s: seq<byte>, a: Point)
    requires |s| == 32 && OnCurve(a) && LittleEndian(s) == Encoding(Neg(a))
    ensures Decoded(s, a)
  {
    hide Cong, OnCurve, LittleEndian, Residue;
    EncodedParts(s, Neg(a));
    ResidueMod(a.y);
    SameResidue(a.y, Residue(a.y));
    NegatedParity(-a.x);
  }

  lemma EncodedParts(s: seq<byte>, a: Point)
    requires |s| == 32 && LittleEndian(s) == Encoding(a)
    ensures LittleEndian(s) % TOP == Residue(a.y) && SignBit(s) == Residue(a.x) % 2
  {
    hide LittleEndian, Residue;
    TopBitIs(s);
    ResidueMod(a.y);
    ModUnique(LittleEndian(s), TOP, Residue(a.x) % 2, Residue(a.y));
  }

  /** The top bit of a 32-byte string. */
  lemma TopBitIs(s: seq<byte>)
    requires |s| == 32
    ensures SignBit(s) == LittleEndian(s) / TOP
  {
    hide LittleEndian, LoadedLimbs, Vec.Value;
    LowBits(s);
  }

  /** Z times Z^(P - 2) is 1. */
  lemma Inverse(z: int, r: int)
    requires PrimeField() && Unit(z) && Cong(r, Pow(z, Pow2(255) - 21))
    ensures Cong(z * r, 1)
  {
    hide Pow2, Pow, Cong, QuarterExponent;
    Exponents();
    UnitIsNotZero(z);
    assert Fermat(z);
    Scale(z, r, Pow(z, Pow2(255) - 21));
    PowStep(z, Pow2(255) - 21);
    CongTrans(z * r, Pow(z, 4 * QuarterExponent()), 1);
  }

  lemma PowStep(z: int, e: nat)
    ensures z * Pow(z, e) == Pow(z, e + 1)
  {}

  lemma UnitIsNotZero(z: int)
    requires Unit(z)
    ensures !Cong(z, 0)
  {
    hide Cong;
    var i :| IsInverse(z, i);
    if Cong(z, 0) {
      ZeroTimes(z, i);
      CongSym(z * i, 1);
      CongTrans(1, z * i, 0);
      OneIsNotZero();
      assert false;
    }
  }

  /** x = X / Z and y = Y / Z. */
  method AffineCoordinates(X: Fe, Y: Fe, Z: Fe, ghost a: Point) returns (x: Fe, y: Fe)
    requires Tight(X) && Tight(Y) && Tight(Z) && Projective(Value(X), Value(Y), Value(Z), a) && PrimeField()
    ensures Tight(x) && Tight(y) && Cong(Value(x), a.x) && Cong(Value(y), a.y)
  {
    hide Value, Cong, Tight, Wide, PrimeField, Unit, Pow2, Pow, ProductLimbs;
    TightIsWide(X);
    TightIsWide(Y);
    TightIsWide(Z);
    var recip := FeInvert(Z);
    TightIsWide(recip);
    Inverse(Value(Z), Value(recip));
    x := FeMul(X, recip);
    y := FeMul(Y, recip);
    Carried(Value(x), Value(X), Value(recip), a.x, Value(Z), 1);
    Carried(Value(y), Value(Y), Value(recip), a.y, Value(Z), 1);
  }

  /** The encoding of x, y. */
  method EncodeAffine(x: Fe, y: Fe, ghost a: Point) returns (s: seq<byte>)
    requires Tight(x) && Tight(y) && Cong(Value(x), a.x) && Cong(Value(y), a.y)
    ensures |s| == 32 && LittleEndian(s) == Encoding(a)
  {
    hide Value, Cong, LittleEndian, BitXor, Residue;
    s := FeToBytes(y);
    var negative := FeIsNegative(x);
    ResidueCong(Value(x), a.x);
    ResidueCong(Value(y), a.y);
    ResidueMod(Value(x));
    ResidueMod(Value(y));
    TopBitIs(s);
    SmallTop(LittleEndian(s));
    XorTop(s[31] as int, negative);
    ghost var t := s;
    s := s[31 := BitXor(s[31] as int, negative * 128)];
    SetTop(t, negative);
  }

  lemma SmallTop(n: nat)
    requires n < P
    ensures n / TOP == 0
  {}

  lemma XorTop(x: nat, b: nat)
    requires x < 128 && b < 2
    ensures BitXor(x, b * 128) == x + b * 128
  {
    hide BitXor;
    SmallPowers();
    assert Pow2(7) == 128;
    XorDisjoint(x, b, 7);
  }

  lemma SetTop(t: seq<byte>, b: nat)
    requires |t| == 32 && t[31] < 128 && b < 2
    ensures LittleEndian(t[31 := t[31] as int + b * 128]) == LittleEndian(t) + TOP * b
  {
    hide LittleEndian, Pow2;
    ByteUpdate(t, 31, t[31] as int + b * 128);
    Exponents();
    Pow2Add(248, 7);
    SmallPowers();
    Pow2Add(6, 1);
  }

  /** The encoding of the point that p stands for. */
  method GeToBytes(p: P2, ghost a: Point) returns (s: seq<byte>)
    requires RepP2(p, a) && PrimeField()
    ensures |s| == 32 && LittleEndian(s) == Encoding(a)
  {
    hide Value, Cong, Tight, PrimeField, Projective;
    var x, y := AffineCoordinates(p.X, p.Y, p.Z, a);
    s := EncodeAffine(x, y, a);
  }

  method GeP3ToBytes(p: P3, ghost a: Point) returns (s: seq<byte>)
    requires RepP3(p, a) && PrimeField()
    ensures |s| == 32 && LittleEndian(s) == Encoding(a)
  {
    hide Value, Cong, Tight, PrimeField, Projective;
    var x, y := AffineCoordinates(p.X, p.Y, p.Z, a);
    s := EncodeAffine(x, y, a);
  }

  lemma SameP3(h: P3, a: Point, b: Point)
    requires RepP3(h, a) && SamePoint(a, b)
    ensures RepP3(h, b)
  {
    hide Cong, Value, Tight, Unit;
    var z := Value(h.Z);
    CongRefl(z);
    CongMul(a.x, b.x, z, z);
    CongMul(a.y, b.y, z, z);
    CongMul(a.x, b.x, a.y, b.y);
    CongMul(a.x * a.y, b.x * b.y, z, z);
    CongTrans(Value(h.X), a.x * z, b.x * z);
    CongTrans(Value(h.Y), a.y * z, b.y * z);
    CongTrans(Value(h.T), (a.x * a.y) * z, (b.x * b.y) * z);
  }
}
