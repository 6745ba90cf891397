/** Points modulo P: the addition law determines its result, and what follows for multiples of points. */
module PointMath {
  import opened Congruence
  import opened Edwards

  /** a and b have the same coordinates modulo P. */
  ghost predicate SamePoint(a: Point, b: Point) { Cong(a.x, b.x) && Cong(a.y, b.y) }

  lemma SameSym(a: Point, b: Point)
    requires SamePoint(a, b)
    ensures SamePoint(b, a)
  {
    CongSym(a.x, b.x);
    CongSym(a.y, b.y);
  }

  lemma SameTrans(a: Point, b: Point, c: Point)
    requires SamePoint(a, b) && SamePoint(b, c)
    ensures SamePoint(a, c)
  {
    CongTrans(a.x, b.x, c.x);
    CongTrans(a.y, b.y, c.y);
  }

  lemma SameRefl(a: Point)
    ensures SamePoint(a, a)
  {
    CongRefl(a.x);
    CongRefl(a.y);
  }

  lemma CancelUnit(u: int, x: int, y: int)
    requires Unit(u) && Cong(x * u, y * u)
    ensures Cong(x, y)
  {
    hide Cong;
    var i :| IsInverse(u, i);
    CongRefl(i);
    CongMul(x * u, y * u, i, i);
    Scale(x, u * i, 1);
    Scale(y, u * i, 1);
    assert (x * u) * i == x * (u * i) && (y * u) * i == y * (u * i);
    CongSym(x * (u * i), x);
    CongTrans(x, x * (u * i), y * (u * i));
    CongTrans(x, y * (u * i), y);
  }

  /** A sum is determined modulo P. */
  lemma SumUnique(a: Point, b: Point, c: Point, c': Point)
    requires IsSum(a, b, c) && IsSum(a, b, c')
    ensures SamePoint(c, c')
  {
    hide Cong, Unit, Cross;
    var u, v := 1 + D * Cross(a, b), 1 - D * Cross(a, b);
    var m, n := a.x * b.y + b.x * a.y, a.y * b.y + a.x * b.x;
    CongSym(c'.x * u, m);
    CongTrans(c.x * u, m, c'.x * u);
    CancelUnit(u, c.x, c'.x);
    CongSym(c'.y * v, n);
    CongTrans(c.y * v, n, c'.y * v);
    CancelUnit(v, c.y, c'.y);
  }

  /** The law does not depend on the representatives of the summands. */
  lemma SumSame(a: Point, b: Point, c: Point, a': Point, b': Point)
    requires IsSum(a, b, c) && SamePoint(a, a') && SamePoint(b, b')
    ensures IsSum(a', b', c)
  {
    hide Cong, Unit;
    CrossSame(a, b, a', b');
    CongRefl(1);
    var e, e' := D * Cross(a, b), D * Cross(a', b');
    CongAdd(1, 1, e, e');
    CongSym(1 + e, 1 + e');
    CongSym(1 - e, 1 - e');
    UnitCong(1 + e', 1 + e);
    UnitCong(1 - e', 1 - e);
    CongMul(a.x, a'.x, b.y, b'.y);
    CongMul(b.x, b'.x, a.y, a'.y);
    CongAdd(a.x * b.y, a'.x * b'.y, b.x * a.y, b'.x * a'.y);
    CongMul(a.y, a'.y, b.y, b'.y);
    CongMul(a.x, a'.x, b.x, b'.x);
    CongAdd(a.y * b.y, a'.y * b'.y, a.x * b.x, a'.x * b'.x);
    Replace(c.x, 1 + e, 1 + e', a.x * b.y + b.x * a.y, a'.x * b'.y + b'.x * a'.y);
    Replace(c.y, 1 - e, 1 - e', a.y * b.y + a.x * b.x, a'.y * b'.y + a'.x * b'.x);
  }

  lemma CrossSame(a: Point, b: Point, a': Point, b': Point)
    requires SamePoint(a, a') && SamePoint(b, b')
    ensures Cong(D * Cross(a, b), D * Cross(a', b'))
  {
    hide Cong;
    CongMul(a.x, a'.x, b.x, b'.x);
    CongMul(a.y, a'.y, b.y, b'.y);
    CongMul(a.x * b.x, a'.x * b'.x, a.y * b.y, a'.y * b'.y);
    Scale(D, Cross(a, b), Cross(a', b'));
  }

  lemma Replace(x: int, u: int, u': int, n: int, n': int)
    requires Cong(x * u, n) && Cong(u', u) && Cong(n, n')
    ensures Cong(x * u', n')
  {
    hide Cong;
    Scale(x, u', u);
    CongTrans(x * u', x * u, n);
    CongTrans(x * u', n, n');
  }
}
