/** ge_scalarmult_base and ge_double_scalarmult_vartime (src/crypto/ed25519/ge.c). */
module ScalarMult {
  import opened Words
  import opened Bytes
  import opened Congruence
  import opened Edwards
  import opened Ge
  import opened Slide
  import opened Radix16
  import opened Select

  type Family = (int, int) -> Point

  /** p + t for a table entry t standing for k B. */
  method AddEntry(h: P3, t: Precomp, ghost q: Family, ghost n: int, ghost k: int) returns (r: P3)
    requires Group(q) && RepP3(h, q(0, n)) && RepPrecomp(t, q(0, k))
    ensures RepP3(r, q(0, n + k))
  {
    hide RepP3, RepPrecomp, RepP1P1, IsSum;
    assert Sums(q, 0, n, 0, k);
    var s := GeMadd(h, t, q(0, n), q(0, k), q(0, n + k));
    r := GeP1P1ToP3(s, q(0, n + k));
  }

  /** r = 2 p, completed. */
  method Double(p: P2, ghost q: Family, ghost m: int, ghost n: int) returns (r: P1P1)
    requires Group(q) && RepP2(p, q(m, n))
    ensures RepP1P1(r, q(2 * m, 2 * n))
  {
    hide RepP2, RepP1P1, IsSum, OnCurve;
    assert Sums(q, m, n, m, n) && Lies(q, m, n);
    assert m + m == 2 * m && n + n == 2 * n;
    r := GeP2Dbl(p, q(m, n), q(2 * m, 2 * n));
  }

  /** Four doublings. */
  method Times16(h: P3, ghost q: Family, ghost n: int) returns (r: P3)
    requires Group(q) && RepP3(h, q(0, n))
    ensures RepP3(r, q(0, 16 * n))
  {
    hide RepP1P1, IsSum, OnCurve, Group, Projective, Fe.Tight, Cong;
    var t := Double(GeP3ToP2(h), q, 0, n);
    var s := GeP1P1ToP2(t, q(0, 2 * n));
    t := Double(s, q, 0, 2 * n);
    s := GeP1P1ToP2(t, q(0, 4 * n));
    t := Double(s, q, 0, 4 * n);
    s := GeP1P1ToP2(t, q(0, 8 * n));
    t := Double(s, q, 0, 8 * n);
    r := GeP1P1ToP3(t, q(0, 16 * n));
  }

  /** base[k][j] stands for (j + 1) 256^k B. */
  ghost predicate BaseTable(base: seq<seq<Precomp>>, q: Family) {
    |base| == 32 && forall k :: 0 <= k < 32 ==> Multiples(base[k], q, Power256(k))
  }

  /** One pass over the digits with index 2 k + p. */
  method Pass(h: P3, e: seq<i8>, p: nat, base: seq<seq<Precomp>>, ghost q: Family, ghost n: int) returns (r: P3)
    requires Group(q) && BaseTable(base, q) && RepP3(h, q(0, n))
    requires |e| == 64 && p < 2 && forall i :: 0 <= i < 64 ==> -8 <= e[i] <= 8
    ensures RepP3(r, q(0, n + Part(e, p)))
  {
    hide RepP3, RepPrecomp, Group, Part, Power256, Multiples, Times;
    r := h;
    NoPart(e, p);
    for k := 0 to 32
      invariant RepP3(r, q(0, n + Part(e[..2 * k], p)))
    {
      ghost var m := Part(e[..2 * k], p);
      var t := SelectEntry(base[k], e[2 * k + p], q, Power256(k));
      NextPart(e, p, k);
      TimesIs(e[2 * k + p] as int, Power256(k));
      r := AddEntry(r, t, q, n + m, e[2 * k + p] as int * Power256(k));
    }
    assert e[..64] == e;
  }

  lemma NoPart(e: seq<i8>, p: nat)
    requires p < 2
    ensures Part(e[..0], p) == 0
  {}

  /** h = a B */
  method GeScalarMultBase(a: seq<byte>, base: seq<seq<Precomp>>, ghost q: Family) returns (h: P3)
    requires |a| == 32 && a[31] <= 127
    requires Group(q) && BaseTable(base, q)
    ensures RepP3(h, q(0, LittleEndian(a)))
  {
    hide RepP3, Group, Part, LittleEndian, BaseTable, Hex;
    var e := Recode(a);
    NeutralPoint(q);
    h := GeP3Zero(q(0, 0));
    h := Pass(h, e[..], 1, base, q, 0);
    h := Times16(h, q, Part(e[..], 1));
    h := Pass(h, e[..], 0, base, q, 16 * Part(e[..], 1));
    HexParts(e[..]);
  }

  lemma NeutralPoint(q: Family)
    requires Group(q)
    ensures Cong(q(0, 0).x, 0) && Cong(q(0, 0).y, 1)
  {}

  /** table[j] stands for (2 j + 1) A. */
  ghost predicate OddMultiples(table: seq<CachedPoint>, q: Family) {
    |table| == 8 && forall j :: 0 <= j < 8 ==> RepCached(table[j], q(2 * j + 1, 0))
  }

  /** table[j] stands for (2 j + 1) B. */
  ghost predicate OddBase(table: seq<Precomp>, q: Family) {
    |table| == 8 && forall j :: 0 <= j < 8 ==> RepPrecomp(table[j], q(0, 2 * j + 1))
  }

  /** The next odd multiple: c + 2 A. */
  method NextOdd(A2: P3, c: CachedPoint, ghost q: Family, ghost k: int) returns (r: CachedPoint)
    requires Group(q) && RepP3(A2, q(2, 0)) && RepCached(c, q(k, 0))
    ensures RepCached(r, q(k + 2, 0))
  {
    hide RepP3, RepCached, RepP1P1, IsSum;
    assert Sums(q, 2, 0, k, 0);
    assert 2 + k == k + 2;
    var t := GeAdd(A2, c, q(2, 0), q(k, 0), q(k + 2, 0));
    var u := GeP1P1ToP3(t, q(k + 2, 0));
    r := GeP3ToCached(u, q(k + 2, 0));
  }

  /** A, 3A, 5A, ..., 15A. */
  method OddTable(A: P3, ghost q: Family) returns (Ai: seq<CachedPoint>)
    requires Group(q) && RepP3(A, q(1, 0))
    ensures OddMultiples(Ai, q)
  {
    hide RepCached, RepP1P1, Group, Projective, Fe.Tight, Cong;
    var c0 := GeP3ToCached(A, q(1, 0));
    var t := Double(GeP3ToP2(A), q, 1, 0);
    var A2 := GeP1P1ToP3(t, q(2, 0));
    var c1 := NextOdd(A2, c0, q, 1);
    var c2 := NextOdd(A2, c1, q, 3);
    var c3 := NextOdd(A2, c2, q, 5);
    var c4 := NextOdd(A2, c3, q, 7);
    var c5 := NextOdd(A2, c4, q, 9);
    var c6 := NextOdd(A2, c5, q, 11);
    var c7 := NextOdd(A2, c6, q, 13);
    Ai := [c0, c1, c2, c3, c4, c5, c6, c7];
  }

  /** t plus d A for a digit d of the recoding. */
  method AddA(t: P1P1, d: i8, Ai: seq<CachedPoint>, ghost q: Family, ghost m: int, ghost n: int) returns (r: P1P1)
    requires Group(q) && OddMultiples(Ai, q) && RepP1P1(t, q(m, n)) && Digit(d)
    ensures RepP1P1(r, q(m + d as int, n))
  {
    hide RepP3, RepCached, RepP1P1, IsSum;
    r := t;
    if d > 0 {
      var u := GeP1P1ToP3(t, q(m, n));
      assert Sums(q, m, n, d as int, 0);
      r := GeAdd(u, Ai[d / 2], q(m, n), q(d as int, 0), q(m + d as int, n));
    } else if d < 0 {
      var u := GeP1P1ToP3(t, q(m, n));
      assert Sums(q, m, n, d as int, 0) && Negates(q, -(d as int), 0);
      r := GeSub(u, Ai[(-d) / 2], q(m, n), q(-(d as int), 0), q(m + d as int, n));
    }
  }

  /** t plus d B for a digit d of the recoding. */
  method AddB(t: P1P1, d: i8, Bi: seq<Precomp>, ghost q: Family, ghost m: int, ghost n: int) returns (r: P1P1)
    requires Group(q) && OddBase(Bi, q) && RepP1P1(t, q(m, n)) && Digit(d)
    ensures RepP1P1(r, q(m, n + d as int))
  {
    hide RepP3, RepPrecomp, RepP1P1, IsSum;
    r := t;
    if d > 0 {
      var u := GeP1P1ToP3(t, q(m, n));
      assert Sums(q, m, n, 0, d as int);
      r := GeMadd(u, Bi[d / 2], q(m, n), q(0, d as int), q(m, n + d as int));
    } else if d < 0 {
      var u := GeP1P1ToP3(t, q(m, n));
      assert Sums(q, m, n, 0, d as int) && Negates(q, 0, -(d as int));
      r := GeMsub(u, Bi[(-d) / 2], q(m, n), q(0, -(d as int)), q(m, n + d as int));
    }
  }

  predicate Digits(s: seq<i8>) {
    |s| == 256 && forall i :: 0 <= i < 256 ==> Digit(s[i])
  }

  /** One digit of each recoding: r becomes 2 r + d A + e B. */
  method Advance(p: P2, d: i8, e: i8, Ai: seq<CachedPoint>, Bi: seq<Precomp>,
                 ghost q: Family, ghost m: int, ghost n: int)
    returns (r: P2)
    requires Group(q) && OddMultiples(Ai, q) && OddBase(Bi, q) && RepP2(p, q(m, n)) && Digit(d) && Digit(e)
    ensures RepP2(r, q(d as int + 2 * m, e as int + 2 * n))
  {
    hide RepP2, RepP1P1, Group, OddMultiples, OddBase, Digit;
    var u := Double(p, q, m, n);
    u := AddA(u, d, Ai, q, 2 * m, 2 * n);
    u := AddB(u, e, Bi, q, 2 * m + d as int, 2 * n);
    assert 2 * m + d as int == d as int + 2 * m && 2 * n + e as int == e as int + 2 * n;
    r := GeP1P1ToP2(u, q(d as int + 2 * m, e as int + 2 * n));
  }

  /** The digits from i on. */
  function High(s: seq<i8>, i: nat): int
    requires i <= |s|
  {
    Binary(s[i..])
  }

  lemma HighStep(s: seq<i8>, i: nat)
    requires i < |s|
    ensures High(s, i) == s[i] as int + 2 * High(s, i + 1)
  {
    NextBit(s, i);
  }

  lemma HighEnds(s: seq<i8>)
    ensures High(s, |s|) == 0 && High(s, 0) == Binary(s)
  {
    assert s[0..] == s;
  }

  /** The first loop: skip the zero digits at the top. */
  method HighestDigit(s: seq<i8>, t: seq<i8>) returns (i: int)
    requires |s| == |t| == 256
    ensures -1 <= i < 256 && High(s, i + 1) == 0 && High(t, i + 1) == 0
    ensures i >= 0 ==> s[i] != 0 || t[i] != 0
  {
    hide High;
    i := 255;
    HighEnds(s);
    HighEnds(t);
    while i >= 0 && s[i] == 0 && t[i] == 0
      invariant -1 <= i < 256 && High(s, i + 1) == 0 && High(t, i + 1) == 0
    {
      HighStep(s, i);
      HighStep(t, i);
      i := i - 1;
    }
  }

  /** The second loop: one doubling and at most two additions a digit. */
  method Evaluate(s: seq<i8>, t: seq<i8>, Ai: seq<CachedPoint>, Bi: seq<Precomp>, ghost q: Family) returns (r: P2)
    requires Digits(s) && Digits(t) && Group(q) && OddMultiples(Ai, q) && OddBase(Bi, q)
    ensures RepP2(r, q(Binary(s), Binary(t)))
  {
    hide RepP2, Group, Binary, High, OddMultiples, OddBase, Digit, Cong;
    NeutralPoint(q);
    r := GeP2Zero(q(0, 0));
    var i := HighestDigit(s, t);
    while i >= 0
      invariant -1 <= i < 256 && RepP2(r, q(High(s, i + 1), High(t, i + 1)))
    {
      HighStep(s, i);
      HighStep(t, i);
      r := Advance(r, s[i], t[i], Ai, Bi, q, High(s, i + 1), High(t, i + 1));
      i := i - 1;
    }
    HighEnds(s);
    HighEnds(t);
  }

  /** r = x A + y B, where x is a and y is b unless a carry falls off the top of their recodings. */
  method GeDoubleScalarMult(a: seq<byte>, A: P3, b: seq<byte>, Bi: seq<Precomp>, ghost q: Family)
    returns (r: P2, ghost x: int, ghost y: int)
    requires |a| == 32 && |b| == 32 && Group(q) && RepP3(A, q(1, 0)) && OddBase(Bi, q)
    ensures HasRecoding(LittleEndian(a)) && HasRecoding(LittleEndian(b)) ==>
            RepP2(r, q(LittleEndian(a), LittleEndian(b)))
    ensures a[31] <= 127 && b[31] <= 127 ==> RepP2(r, q(LittleEndian(a), LittleEndian(b)))
    ensures RepP2(r, q(x, y))
    ensures x == LittleEndian(a) || (a[31] > 127 && x == LittleEndian(a) - Pow2(256))
    ensures y == LittleEndian(b) || (b[31] > 127 && y == LittleEndian(b) - Pow2(256))
  {
    hide RepP2, RepP3, Group, LittleEndian, Pow2, Binary, OddMultiples, OddBase, Zeros, Digit, HasRecoding, Loses;
    var aslide := new i8[256];
    var bslide := new i8[256];
    SlideDigits(aslide, a);
    SlideDigits(bslide, b);
    var Ai := OddTable(A, q);
    r := Evaluate(aslide[..], bslide[..], Ai, Bi, q);
    x, y := Binary(aslide[..]), Binary(bslide[..]);
  }
}
