/** Group elements and their addition (src/crypto/ed25519/ge.c, ge.h). */
module Ge {
  import opened Words
  import opened Congruence
  import opened Fe
  import opened Edwards

  /** ge_p2: x = X/Z, y = Y/Z. */
  datatype P2 = P2(X: Fe, Y: Fe, Z: Fe)

  /** ge_p3: x = X/Z, y = Y/Z, XY = ZT. */
  datatype P3 = P3(X: Fe, Y: Fe, Z: Fe, T: Fe)

  /** ge_p1p1: x = X/Z, y = Y/T. */
  datatype P1P1 = P1P1(X: Fe, Y: Fe, Z: Fe, T: Fe)

  /** ge_precomp: y + x, y - x, 2 d x y. */
  datatype Precomp = Precomp(yplusx: Fe, yminusx: Fe, xy2d: Fe)

  /** ge_cached. */
  datatype CachedPoint = CachedPoint(YplusX: Fe, YminusX: Fe, Z: Fe, T2d: Fe)

  ghost predicate RepP2(p: P2, a: Point) {
    && Tight(p.X) && Tight(p.Y) && Tight(p.Z)
    && Projective(Value(p.X), Value(p.Y), Value(p.Z), a)
  }

  ghost predicate RepP3(p: P3, a: Point) {
    && Tight(p.X) && Tight(p.Y) && Tight(p.Z) && Tight(p.T)
    && Projective(Value(p.X), Value(p.Y), Value(p.Z), a)
    && Cong(Value(p.T), (a.x * a.y) * Value(p.Z))
  }

  ghost predicate RepP1P1(p: P1P1, a: Point) {
    && Wide(p.X) && Wide(p.Y) && Wide(p.Z) && Wide(p.T)
    && Completed(Value(p.X), Value(p.Y), Value(p.Z), Value(p.T), a)
  }

  ghost predicate RepCached(p: CachedPoint, a: Point) {
    && Wide(p.YplusX) && Wide(p.YminusX) && Tight(p.Z) && Tight(p.T2d)
    && Cached(Value(p.YplusX), Value(p.YminusX), Value(p.Z), Value(p.T2d), a)
  }

  ghost predicate RepPrecomp(p: Precomp, a: Point) {
    && Tight(p.yplusx) && Tight(p.yminusx) && Tight(p.xy2d)
    && Cached(Value(p.yplusx), Value(p.yminusx), 1, Value(p.xy2d), a)
  }

  /** A sum or difference of two reduced elements. */
  predicate Sum2(f: Fe) { Bounded(f, 67779952, 33889976) }

  method Add2(f: Fe, g: Fe) returns (h: Fe)
    requires Tight(f) && Tight(g)
    ensures Sum2(h) && Wide(h) && Value(h) == Value(f) + Value(g)
  {
    hide Value;
    h := FeAdd(f, g);
  }

  method Sub2(f: Fe, g: Fe) returns (h: Fe)
    requires Tight(f) && Tight(g)
    ensures Sum2(h) && Wide(h) && Value(h) == Value(f) - Value(g)
  {
    hide Value;
    h := FeSub(f, g);
  }

  method Add3(f: Fe, g: Fe) returns (h: Fe)
    requires Sum2(f) && Tight(g)
    ensures Wide(h) && Value(h) == Value(f) + Value(g)
  {
    hide Value;
    h := FeAdd(f, g);
  }

  method Sub3(f: Fe, g: Fe) returns (h: Fe)
    requires (Sum2(f) && Tight(g)) || (Tight(f) && Sum2(g))
    ensures Wide(h) && Value(h) == Value(f) - Value(g)
  {
    hide Value;
    h := FeSub(f, g);
  }

  lemma TightIsWide(f: Fe)
    requires Tight(f)
    ensures Wide(f)
  {}

  /** The first half of an addition: the four products. */
  method Products(p: P3, u: Fe, v: Fe, w: Fe) returns (m: Fe, n: Fe, k: Fe)
    requires Tight(p.X) && Tight(p.Y) && Tight(p.T) && Wide(u) && Wide(v) && Tight(w)
    ensures Tight(m) && Cong(Value(m), (Value(p.Y) + Value(p.X)) * Value(u))
    ensures Tight(n) && Cong(Value(n), (Value(p.Y) - Value(p.X)) * Value(v))
    ensures Tight(k) && Cong(Value(k), Value(w) * Value(p.T))
  {
    hide Value, Cong, Tight, Wide, Sum2, ProductLimbs;
    TightIsWide(p.T);
    TightIsWide(w);
    var s := Add2(p.Y, p.X);
    var d := Sub2(p.Y, p.X);
    m := FeMul(s, u);
    n := FeMul(d, v);
    k := FeMul(w, p.T);
  }

  /** r = p + q */
  method GeAdd(p: P3, q: CachedPoint, ghost a: Point, ghost b: Point, ghost c: Point) returns (r: P1P1)
    requires RepP3(p, a) && RepCached(q, b) && IsSum(a, b, c)
    ensures RepP1P1(r, c)
  {
    hide Value, Cong, Tight, Wide, Sum2, Cached, Projective, Completed, IsSum, ProductLimbs;
    TightIsWide(p.Z);
    TightIsWide(q.Z);
    var Z, Y, T := Products(p, q.YplusX, q.YminusX, q.T2d);
    var X := FeMul(p.Z, q.Z);
    AddFormula(Value(p.X), Value(p.Y), Value(p.Z), Value(p.T),
               Value(q.YplusX), Value(q.YminusX), Value(q.Z), Value(q.T2d),
               Value(Z), Value(Y), Value(T), Value(X), a, b, c);
    var t0 := Add2(X, X);
    X := Sub2(Z, Y);
    Y := Add2(Z, Y);
    Z := Add3(t0, T);
    T := Sub3(t0, T);
    r := P1P1(X, Y, Z, T);
  }

  /** r = p - q */
  method GeSub(p: P3, q: CachedPoint, ghost a: Point, ghost b: Point, ghost c: Point) returns (r: P1P1)
    requires RepP3(p, a) && RepCached(q, b) && IsSum(a, Neg(b), c)
    ensures RepP1P1(r, c)
  {
    hide Value, Cong, Tight, Wide, Sum2, Cached, Projective, Completed, IsSum, ProductLimbs;
    TightIsWide(p.Z);
    TightIsWide(q.Z);
    var Z, Y, T := Products(p, q.YminusX, q.YplusX, q.T2d);
    var X := FeMul(p.Z, q.Z);
    NegCached(Value(q.YplusX), Value(q.YminusX), Value(q.Z), Value(q.T2d), b);
    NegatedProduct(Value(T), Value(q.T2d), Value(p.T));
    AddFormula(Value(p.X), Value(p.Y), Value(p.Z), Value(p.T),
               Value(q.YminusX), Value(q.YplusX), Value(q.Z), -Value(q.T2d),
               Value(Z), Value(Y), -Value(T), Value(X), a, Neg(b), c);
    var t0 := Add2(X, X);
    X := Sub2(Z, Y);
    Y := Add2(Z, Y);
    Z := Sub3(t0, T);
    T := Add3(t0, T);
    r := P1P1(X, Y, Z, T);
  }

  lemma NegatedProduct(k: int, u: int, v: int)
    requires Cong(k, u * v)
    ensures Cong(-k, (-u) * v)
  {
    Scale(-1, k, u * v);
  }

  /** r = p + q for a table entry q */
  method GeMadd(p: P3, q: Precomp, ghost a: Point, ghost b: Point, ghost c: Point) returns (r: P1P1)
    requires RepP3(p, a) && RepPrecomp(q, b) && IsSum(a, b, c)
    ensures RepP1P1(r, c)
  {
    hide Value, Cong, Tight, Wide, Sum2, Cached, Projective, Completed, IsSum;
    TightIsWide(q.yplusx);
    TightIsWide(q.yminusx);
    var Z, Y, T := Products(p, q.yplusx, q.yminusx, q.xy2d);
    CongRefl(Value(p.Z));
    AddFormula(Value(p.X), Value(p.Y), Value(p.Z), Value(p.T),
               Value(q.yplusx), Value(q.yminusx), 1, Value(q.xy2d),
               Value(Z), Value(Y), Value(T), Value(p.Z), a, b, c);
    var t0 := Add2(p.Z, p.Z);
    var X := Sub2(Z, Y);
    Y := Add2(Z, Y);
    Z := Add3(t0, T);
    T := Sub3(t0, T);
    r := P1P1(X, Y, Z, T);
  }

  /** r = p - q for a table entry q */
  method GeMsub(p: P3, q: Precomp, ghost a: Point, ghost b: Point, ghost c: Point) returns (r: P1P1)
    requires RepP3(p, a) && RepPrecomp(q, b) && IsSum(a, Neg(b), c)
    ensures RepP1P1(r, c)
  {
    hide Value, Cong, Tight, Wide, Sum2, Cached, Projective, Completed, IsSum;
    TightIsWide(q.yplusx);
    TightIsWide(q.yminusx);
    var Z, Y, T := Products(p, q.yminusx, q.yplusx, q.xy2d);
    CongRefl(Value(p.Z));
    NegCached(Value(q.yplusx), Value(q.yminusx), 1, Value(q.xy2d), b);
    NegatedProduct(Value(T), Value(q.xy2d), Value(p.T));
    AddFormula(Value(p.X), Value(p.Y), Value(p.Z), Value(p.T),
               Value(q.yminusx), Value(q.yplusx), 1, -Value(q.xy2d),
               Value(Z), Value(Y), -Value(T), Value(p.Z), a, Neg(b), c);
    var t0 := Add2(p.Z, p.Z);
    var X := Sub2(Z, Y);
    Y := Add2(Z, Y);
    Z := Sub3(t0, T);
    T := Add3(t0, T);
    r := P1P1(X, Y, Z, T);
  }

  /** r = 2 p */
  method GeP2Dbl(p: P2, ghost a: Point, ghost c: Point) returns (r: P1P1)
    requires RepP2(p, a) && OnCurve(a) && IsSum(a, a, c)
    ensures RepP1P1(r, c)
  {
    hide Value, Cong, Tight, Wide, Sum2, Projective, Completed, IsSum, OnCurve, ProductLimbs;
    TightIsWide(p.X);
    TightIsWide(p.Y);
    TightIsWide(p.Z);
    var X := FeSq(p.X);
    var Z := FeSq(p.Y);
    var T := FeSq2(p.Z);
    var Y := Add2(p.X, p.Y);
    var t0 := FeSq(Y);
    DoubleFormula(Value(p.X), Value(p.Y), Value(p.Z), Value(X), Value(Z), Value(T), Value(t0), a, c);
    Y := Add2(Z, X);
    Z := Sub2(Z, X);
    X := Sub3(t0, Y);
    T := Sub3(T, Z);
    r := P1P1(X, Y, Z, T);
  }

  /** r = p */
  method GeP1P1ToP2(p: P1P1, ghost a: Point) returns (r: P2)
    requires RepP1P1(p, a)
    ensures RepP2(r, a)
  {
    hide Value, Cong, Tight, Wide, Projective, Completed, ProductLimbs;
    var X := FeMul(p.X, p.T);
    var Y := FeMul(p.Y, p.Z);
    var Z := FeMul(p.Z, p.T);
    r := P2(X, Y, Z);
    CompletedToExtended(Value(p.X), Value(p.Y), Value(p.Z), Value(p.T), Value(X), Value(Y), Value(Z), 0, a);
  }

  /** r = p */
  method GeP1P1ToP3(p: P1P1, ghost a: Point) returns (r: P3)
    requires RepP1P1(p, a)
    ensures RepP3(r, a)
  {
    hide Value, Cong, Tight, Wide, Projective, Completed, ProductLimbs;
    var X := FeMul(p.X, p.T);
    var Y := FeMul(p.Y, p.Z);
    var Z := FeMul(p.Z, p.T);
    var T := FeMul(p.X, p.Y);
    r := P3(X, Y, Z, T);
    CompletedToExtended(Value(p.X), Value(p.Y), Value(p.Z), Value(p.T), Value(X), Value(Y), Value(Z), Value(T), a);
  }

  function GeP3ToP2(p: P3): P2 { P2(p.X, p.Y, p.Z) }

  /** r = 2 p */
  method GeP3Dbl(p: P3, ghost a: Point, ghost c: Point) returns (r: P1P1)
    requires RepP3(p, a) && OnCurve(a) && IsSum(a, a, c)
    ensures RepP1P1(r, c)
  {
    hide Cong, Projective, OnCurve, IsSum;
    r := GeP2Dbl(GeP3ToP2(p), a, c);
  }

  const d2: Fe := Fe(-21827239, -5839606, -30745221, 13898782, 229458, 15978800, -12551817, -6495438, 29715968, 9444199)

  lemma D2Value()
    ensures Tight(d2) && Cong(Value(d2), 2 * D)
  {
    Unfold(Limbs(d2));
    CongBy(Value(d2), 2 * D, -1);
  }

  /** r = p */
  method GeP3ToCached(p: P3, ghost a: Point) returns (r: CachedPoint)
    requires RepP3(p, a)
    ensures RepCached(r, a)
  {
    hide Value, Cong, Tight, Wide, Sum2, Cached, Projective, ProductLimbs;
    D2Value();
    TightIsWide(d2);
    TightIsWide(p.T);
    var YplusX := Add2(p.Y, p.X);
    var YminusX := Sub2(p.Y, p.X);
    var T2d := FeMul(p.T, d2);
    r := CachedPoint(YplusX, YminusX, p.Z, T2d);
    ExtendedToCached(Value(p.X), Value(p.Y), Value(p.Z), Value(p.T), Value(T2d), Value(d2), a);
  }

  function FeZero(): Fe { Fe(0, 0, 0, 0, 0, 0, 0, 0, 0, 0) }

  function FeOne(): Fe { Fe(1, 0, 0, 0, 0, 0, 0, 0, 0, 0) }

  lemma SmallValues()
    ensures Tight(FeZero()) && Value(FeZero()) == 0
    ensures Tight(FeOne()) && Value(FeOne()) == 1
  {
    Unfold(Limbs(FeZero()));
    Unfold(Limbs(FeOne()));
  }

  /** The neutral element. */
  method GeP3Zero(ghost a: Point) returns (r: P3)
    requires Cong(a.x, 0) && Cong(a.y, 1)
    ensures RepP3(r, a)
  {
    hide Value, Cong, Tight, Unit;
    r := P3(FeZero(), FeOne(), FeOne(), FeZero());
    SmallValues();
    UnitOne();
    CongSym(a.x, 0);
    CongSym(a.y, 1);
    CongMul(a.x, 0, a.y, 1);
    CongSym(a.x * a.y, 0);
  }

  method GeP2Zero(ghost a: Point) returns (r: P2)
    requires Cong(a.x, 0) && Cong(a.y, 1)
    ensures RepP2(r, a)
  {
    hide Value, Cong, Tight, Unit;
    r := P2(FeZero(), FeOne(), FeOne());
    SmallValues();
    UnitOne();
    CongSym(a.x, 0);
    CongSym(a.y, 1);
  }
}
