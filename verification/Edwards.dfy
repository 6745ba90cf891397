/** The twisted Edwards curve -x^2 + y^2 = 1 + d x^2 y^2 modulo P (RFC 8032, section 5.1). */
module Edwards {
  import opened Congruence

  /** -121665/121666 modulo P. */
  const D: int := 0x52036cee2b6ffe738cc740797779e89800700a4d4141d8ab75eb4dca135978a3

  lemma CurveConstant()
    ensures Cong(121666 * D, -121665)
  {
    CongBy(121666 * D, -121665, (121666 * D + 121665) / P);
  }

  /** Affine coordinates, modulo P. */
  datatype Point = Point(x: int, y: int)

  function Neg(a: Point): Point { Point(-a.x, a.y) }

  ghost predicate IsInverse(z: int, i: int) { Cong(z * i, 1) }

  ghost predicate Unit(z: int) { exists i :: IsInverse(z, i) }

  ghost predicate OnCurve(a: Point) {
    Cong(a.y * a.y - a.x * a.x, 1 + D * ((a.x * a.x) * (a.y * a.y)))
  }

  /** x1 x2 y1 y2 */
  function Cross(a: Point, b: Point): int { (a.x * b.x) * (a.y * b.y) }

  /** c is a + b: the addition law, without division (RFC 8032, section 5.1.4). */
  ghost predicate IsSum(a: Point, b: Point, c: Point) {
    && Unit(1 + D * Cross(a, b)) && Unit(1 - D * Cross(a, b))
    && Cong(c.x * (1 + D * Cross(a, b)), a.x * b.y + b.x * a.y)
    && Cong(c.y * (1 - D * Cross(a, b)), a.y * b.y + a.x * b.x)
  }

  lemma UnitMul(a: int, b: int)
    requires Unit(a) && Unit(b)
    ensures Unit(a * b)
  {
    var i :| IsInverse(a, i);
    var j :| IsInverse(b, j);
    CongMul(a * i, 1, b * j, 1);
    Regroup(a, i, b, j);
    assert IsInverse(a * b, i * j);
  }

  lemma Regroup(a: int, i: int, b: int, j: int)
    ensures (a * i) * (b * j) == (a * b) * (i * j)
  {}

  lemma UnitCong(a: int, b: int)
    requires Cong(a, b) && Unit(b)
    ensures Unit(a)
  {
    var i :| IsInverse(b, i);
    CongRefl(i);
    CongMul(a, b, i, i);
    CongTrans(a * i, b * i, 1);
    assert IsInverse(a, i);
  }

  lemma UnitOne()
    ensures Unit(1)
  {
    CongRefl(1);
    assert IsInverse(1, 1);
  }

  lemma UnitTwo()
    ensures Unit(2)
  {
    CongBy(2 * ((P + 1) / 2), 1, 1);
    assert IsInverse(2, (P + 1) / 2);
  }

  /** Scaling both sides of a congruence. */
  lemma Scale(k: int, a: int, b: int)
    requires Cong(a, b)
    ensures Cong(k * a, k * b)
  {
    CongRefl(k);
    CongMul(k, k, a, b);
  }

  /** X : Y : Z stands for a. */
  ghost predicate Projective(x: int, y: int, z: int, a: Point) {
    Unit(z) && Cong(x, a.x * z) && Cong(y, a.y * z)
  }

  /** ((X : Z), (Y : T)) stands for a. */
  ghost predicate Completed(x: int, y: int, z: int, t: int, a: Point) {
    Unit(z) && Unit(t) && Cong(x, a.x * z) && Cong(y, a.y * t)
  }

  /** (y + x) z, (y - x) z and 2 d x y z for a. */
  ghost predicate Cached(yplusx: int, yminusx: int, z: int, t2d: int, a: Point) {
    && Unit(z)
    && Cong(yplusx, (a.y + a.x) * z)
    && Cong(yminusx, (a.y - a.x) * z)
    && Cong(t2d, ((2 * D) * (a.x * a.y)) * z)
  }

  /** A product of two scaled factors. */
  lemma ScaledProduct(s: int, u: int, p: int, u': int, p': int, z1: int, z2: int)
    requires Cong(s, u * p) && Cong(u, u' * z1) && Cong(p, p' * z2)
    ensures Cong(s, (z1 * z2) * (u' * p'))
  {
    hide *;
    CongMul(u, u' * z1, p, p' * z2);
    CongTrans(s, u * p, (u' * z1) * (p' * z2));
    Regroup(u', z1, p', z2);
    assert (u' * p') * (z1 * z2) == (z1 * z2) * (u' * p');
  }

  lemma UnitScaled(den: int, w: int, q: int)
    requires Cong(den, w * q) && Unit(w) && Unit(q)
    ensures Unit(den)
  {
    hide *;
    UnitMul(w, q);
    UnitCong(den, w * q);
  }

  /** num / den is v when both are scaled by w. */
  lemma Ratio(num: int, den: int, w: int, n: int, q: int, v: int)
    requires Cong(num, w * n) && Cong(den, w * q) && Cong(v * q, n)
    ensures Cong(num, v * den)
  {
    hide *;
    Scale(v, den, w * q);
    Scale(w, v * q, n);
    assert v * (w * q) == w * (v * q);
    CongTrans(v * den, w * (v * q), w * n);
    CongSym(v * den, w * n);
    CongTrans(num, w * n, v * den);
  }

  lemma AddNumerators(x1: int, y1: int, z1: int, yplusx: int, yminusx: int, z2: int, m: int, n: int, a: Point, b: Point)
    requires Cong(x1, a.x * z1) && Cong(y1, a.y * z1)
    requires Cong(yplusx, (b.y + b.x) * z2) && Cong(yminusx, (b.y - b.x) * z2)
    requires Cong(m, (y1 + x1) * yplusx) && Cong(n, (y1 - x1) * yminusx)
    ensures Cong(m - n, (2 * (z1 * z2)) * (a.x * b.y + b.x * a.y))
    ensures Cong(m + n, (2 * (z1 * z2)) * (a.y * b.y + a.x * b.x))
  {
    hide *;
    FactorRow(x1, y1, z1, yplusx, z2, m, a, b.y + b.x, 1);
    FactorRow(x1, y1, z1, yminusx, z2, n, a, b.y - b.x, -1);
    NumeratorsCong(m, n, z1 * z2, a.x, a.y, b.x, b.y);
  }

  /** (y1 + s x1) p, with x1, y1 and p scaled. */
  lemma FactorRow(x1: int, y1: int, z1: int, p: int, z2: int, m: int, a: Point, v: int, s: int)
    requires Cong(x1, a.x * z1) && Cong(y1, a.y * z1) && Cong(p, v * z2) && (s == 1 || s == -1)
    requires Cong(m, (y1 + s * x1) * p)
    ensures Cong(m, (z1 * z2) * ((a.y + s * a.x) * v))
  {
    hide *;
    CongAdd(y1, a.y * z1, x1, a.x * z1);
    Common(a.y, a.x, z1);
    ScaledProduct(m, y1 + s * x1, p, a.y + s * a.x, v, z1, z2);
  }

  lemma NumeratorsCong(m: int, n: int, w: int, x1: int, y1: int, x2: int, y2: int)
    requires Cong(m, w * ((y1 + x1) * (y2 + x2))) && Cong(n, w * ((y1 - x1) * (y2 - x2)))
    ensures Cong(m - n, (2 * w) * (x1 * y2 + x2 * y1)) && Cong(m + n, (2 * w) * (y1 * y2 + x1 * x2))
  {
    hide *;
    CongAdd(m, w * ((y1 + x1) * (y2 + x2)), n, w * ((y1 - x1) * (y2 - x2)));
    Numerators(w, x1, y1, x2, y2);
  }

  lemma AddDenominators(z1: int, t1: int, z2: int, t2d: int, k: int, l: int, a: Point, b: Point)
    requires Cong(t1, (a.x * a.y) * z1) && Cong(t2d, ((2 * D) * (b.x * b.y)) * z2)
    requires Cong(k, t2d * t1) && Cong(l, z1 * z2)
    ensures Cong((l + l) + k, (2 * (z1 * z2)) * (1 + D * Cross(a, b)))
    ensures Cong((l + l) - k, (2 * (z1 * z2)) * (1 - D * Cross(a, b)))
  {
    hide Cong, Unit;
    ScaledProduct(k, t2d, t1, (2 * D) * (b.x * b.y), a.x * a.y, z2, z1);
    CongAdd(l, z1 * z2, l, z1 * z2);
    CongAdd(l + l, z1 * z2 + z1 * z2, k, (z2 * z1) * (((2 * D) * (b.x * b.y)) * (a.x * a.y)));
    Denominators(z1, z2, D, a.x, a.y, b.x, b.y);
  }

  /** The completed coordinates that ge_add, ge_sub, ge_madd and ge_msub compute stand for the sum. */
  lemma AddFormula(x1: int, y1: int, z1: int, t1: int, yplusx: int, yminusx: int, z2: int, t2d: int,
                   m: int, n: int, k: int, l: int, a: Point, b: Point, c: Point)
    requires Projective(x1, y1, z1, a) && Cong(t1, (a.x * a.y) * z1)
    requires Cached(yplusx, yminusx, z2, t2d, b) && IsSum(a, b, c)
    requires Cong(m, (y1 + x1) * yplusx) && Cong(n, (y1 - x1) * yminusx) && Cong(k, t2d * t1) && Cong(l, z1 * z2)
    ensures Completed(m - n, m + n, (l + l) + k, (l + l) - k, c)
  {
    hide Cong, Unit;
    AddNumerators(x1, y1, z1, yplusx, yminusx, z2, m, n, a, b);
    AddDenominators(z1, t1, z2, t2d, k, l, a, b);
    UnitMul(z1, z2);
    UnitTwo();
    UnitMul(2, z1 * z2);
    UnitScaled((l + l) + k, 2 * (z1 * z2), 1 + D * Cross(a, b));
    Ratio(m - n, (l + l) + k, 2 * (z1 * z2), a.x * b.y + b.x * a.y, 1 + D * Cross(a, b), c.x);
    UnitScaled((l + l) - k, 2 * (z1 * z2), 1 - D * Cross(a, b));
    Ratio(m + n, (l + l) - k, 2 * (z1 * z2), a.y * b.y + a.x * b.x, 1 - D * Cross(a, b), c.y);
  }

  lemma Common(y: int, x: int, z: int)
    ensures y * z + x * z == (y + x) * z && y * z - x * z == (y - x) * z
  {}

  lemma Numerators(w: int, x1: int, y1: int, x2: int, y2: int)
    ensures w * ((y1 + x1) * (y2 + x2)) - w * ((y1 - x1) * (y2 - x2)) == (2 * w) * (x1 * y2 + x2 * y1)
    ensures w * ((y1 + x1) * (y2 + x2)) + w * ((y1 - x1) * (y2 - x2)) == (2 * w) * (y1 * y2 + x1 * x2)
  {}

  lemma Denominators(z1: int, z2: int, d: int, x1: int, y1: int, x2: int, y2: int)
    ensures var w, k := z1 * z2, (z2 * z1) * (((2 * d) * (x2 * y2)) * (x1 * y1));
            && w + w + k == (2 * w) * (1 + d * ((x1 * x2) * (y1 * y2)))
            && w + w - k == (2 * w) * (1 - d * ((x1 * x2) * (y1 * y2)))
  {}

  lemma NegCached(yplusx: int, yminusx: int, z: int, t2d: int, a: Point)
    requires Cached(yplusx, yminusx, z, t2d, a)
    ensures Cached(yminusx, yplusx, z, -t2d, Neg(a))
  {
    hide Cong, Unit;
    Scale(-1, t2d, ((2 * D) * (a.x * a.y)) * z);
    NegProduct(D, a.x, a.y, z);
  }

  lemma NegProduct(d: int, x: int, y: int, z: int)
    ensures -1 * (((2 * d) * (x * y)) * z) == ((2 * d) * (-x * y)) * z
  {}

  /** The squares of scaled coordinates. */
  lemma Squares(x: int, y: int, z: int, xx: int, yy: int, s: int, a: Point)
    requires Cong(x, a.x * z) && Cong(y, a.y * z)
    requires Cong(xx, x * x) && Cong(yy, y * y) && Cong(s, (x + y) * (x + y))
    ensures Cong(yy - xx, (z * z) * (a.y * a.y) - (z * z) * (a.x * a.x))
    ensures Cong(yy + xx, (z * z) * (a.y * a.y + a.x * a.x))
    ensures Cong(s - (yy + xx), (z * z) * (a.x * a.y + a.x * a.y))
  {
    hide *;
    ScaledProduct(xx, x, x, a.x, a.x, z, z);
    ScaledProduct(yy, y, y, a.y, a.y, z, z);
    CongAdd(x, a.x * z, y, a.y * z);
    Common(a.x, a.y, z);
    ScaledProduct(s, x + y, x + y, a.x + a.y, a.x + a.y, z, z);
    CongAdd(yy, (z * z) * (a.y * a.y), xx, (z * z) * (a.x * a.x));
    SquareSum(z * z, a.x, a.y);
    CongAdd(s, (z * z) * ((a.x + a.y) * (a.x + a.y)), yy + xx, (z * z) * (a.y * a.y + a.x * a.x));
  }

  lemma SquareSum(w: int, x: int, y: int)
    ensures w * (y * y) + w * (x * x) == w * (y * y + x * x)
    ensures w * ((x + y) * (x + y)) - w * (y * y + x * x) == w * (x * y + x * y)
    ensures w * (y * y) - w * (x * x) == w * (y * y - x * x)
  {}

  /** The completed coordinates that ge_p2_dbl computes stand for the double of a point of the curve. */
  lemma DoubleFormula(x: int, y: int, z: int, xx: int, yy: int, zz2: int, s: int, a: Point, c: Point)
    requires Projective(x, y, z, a) && OnCurve(a) && IsSum(a, a, c)
    requires Cong(xx, x * x) && Cong(yy, y * y) && Cong(s, (x + y) * (x + y)) && Cong(zz2, 2 * (z * z))
    ensures Completed(s - (yy + xx), yy + xx, yy - xx, zz2 - (yy - xx), c)
  {
    hide Cong, Unit;
    var w, e := z * z, Cross(a, a);
    Squares(x, y, z, xx, yy, s, a);
    SquareSum(w, a.x, a.y);
    Scale(w, a.y * a.y - a.x * a.x, 1 + D * e);
    CongTrans(yy - xx, w * (a.y * a.y - a.x * a.x), w * (1 + D * e));
    CongAdd(zz2, 2 * w, yy - xx, w * (1 + D * e));
    TwoMinus(w, D * e);
    UnitMul(z, z);
    UnitScaled(yy - xx, w, 1 + D * e);
    Ratio(s - (yy + xx), yy - xx, w, a.x * a.y + a.x * a.y, 1 + D * e, c.x);
    UnitScaled(zz2 - (yy - xx), w, 1 - D * e);
    Ratio(yy + xx, zz2 - (yy - xx), w, a.y * a.y + a.x * a.x, 1 - D * e, c.y);
  }

  lemma TwoMinus(w: int, f: int)
    ensures 2 * w - w * (1 + f) == w * (1 - f)
  {}

  /** The conversions of ge_p1p1_to_p2 and ge_p1p1_to_p3. */
  lemma CompletedToExtended(x: int, y: int, z: int, t: int, xt: int, yz: int, zt: int, xy: int, a: Point)
    requires Completed(x, y, z, t, a)
    requires Cong(xt, x * t) && Cong(yz, y * z) && Cong(zt, z * t)
    ensures Projective(xt, yz, zt, a)
    ensures Cong(xy, x * y) ==> Cong(xy, (a.x * a.y) * zt)
  {
    hide Cong, Unit;
    UnitMul(z, t);
    UnitCong(zt, z * t);
    CongSym(zt, z * t);
    Carried(xt, x, t, a.x, z, zt);
    assert t * z == z * t;
    Carried(yz, y, z, a.y, t, zt);
    if Cong(xy, x * y) {
      CongMul(x, a.x * z, y, a.y * t);
      Regroup(a.x, z, a.y, t);
      CongTrans(xy, x * y, (a.x * a.y) * (z * t));
      Scale(a.x * a.y, z * t, zt);
      CongTrans(xy, (a.x * a.y) * (z * t), (a.x * a.y) * zt);
    }
  }

  lemma Carried(p: int, x: int, t: int, v: int, z: int, zt: int)
    requires Cong(p, x * t) && Cong(x, v * z) && Cong(z * t, zt)
    ensures Cong(p, v * zt)
  {
    hide *;
    CongRefl(t);
    CongMul(x, v * z, t, t);
    CongTrans(p, x * t, (v * z) * t);
    assert (v * z) * t == v * (z * t);
    Scale(v, z * t, zt);
    CongTrans(p, v * (z * t), v * zt);
  }

  /** ge_p3_to_cached. */
  lemma ExtendedToCached(x: int, y: int, z: int, t: int, t2d: int, d2: int, a: Point)
    requires Projective(x, y, z, a) && Cong(t, (a.x * a.y) * z)
    requires Cong(t2d, t * d2) && Cong(d2, 2 * D)
    ensures Cached(y + x, y - x, z, t2d, a)
  {
    hide Cong, Unit;
    CongAdd(y, a.y * z, x, a.x * z);
    Common(a.y, a.x, z);
    CongMul(t, (a.x * a.y) * z, d2, 2 * D);
    CongTrans(t2d, t * d2, ((a.x * a.y) * z) * (2 * D));
    Commute(a.x * a.y, z, 2 * D);
  }

  lemma Commute(p: int, z: int, d: int)
    ensures (p * z) * d == (d * p) * z
  {}

  /** Q(m, n) are the points m A + n B of a group of curve points under the addition law. */
  ghost predicate Group(q: (int, int) -> Point) {
    && (forall m, n, k, l :: Sums(q, m, n, k, l))
    && (forall m, n :: Negates(q, m, n))
    && (forall m, n :: Lies(q, m, n))
    && Cong(q(0, 0).x, 0) && Cong(q(0, 0).y, 1)
  }

  ghost predicate Sums(q: (int, int) -> Point, m: int, n: int, k: int, l: int) {
    IsSum(q(m, n), q(k, l), q(m + k, n + l))
  }

  ghost predicate Negates(q: (int, int) -> Point, m: int, n: int) {
    q(-m, -n) == Neg(q(m, n))
  }

  ghost predicate Lies(q: (int, int) -> Point, m: int, n: int) {
    OnCurve(q(m, n))
  }

  function Sign(k: int): int { if k % 2 == 0 then 1 else -1 }

  /** The hypotheses of Group are consistent: the points (0, 1) and (0, -1) meet them. */
  lemma GroupOfTwo()
    ensures Group((m: int, n: int) => Point(0, Sign(m + n)))
  {
    hide Cong, Unit, Sign;
    var q := (m: int, n: int) => Point(0, Sign(m + n));
    forall m, n, k, l ensures Sums(q, m, n, k, l) {
      SumOfSigns(m + n, k + l);
      assert (m + n) + (k + l) == (m + k) + (n + l);
    }
    forall m, n ensures Negates(q, m, n) {
      NegatedSign(m + n);
      assert -m + -n == -(m + n);
    }
    forall m, n ensures Lies(q, m, n) {
      SignOnCurve(m + n);
    }
    SignOfZero();
  }

  lemma SumOfSigns(k: int, l: int)
    ensures IsSum(Point(0, Sign(k)), Point(0, Sign(l)), Point(0, Sign(k + l)))
  {
    hide Cong, Unit;
    UnitOne();
    CongRefl(0);
    CongRefl(Sign(k) * Sign(l));
    assert (k + l) % 2 == (k % 2 + l % 2) % 2;
  }

  lemma NegatedSign(k: int)
    ensures Sign(-k) == Sign(k)
  {}

  lemma SignOnCurve(k: int)
    ensures OnCurve(Point(0, Sign(k)))
  {
    hide Cong;
    CongRefl(1);
  }

  lemma SignOfZero()
    ensures Cong(Sign(0), 1) && Cong(0, 0)
  {
    hide Cong;
    CongRefl(1);
    CongRefl(0);
  }
}
