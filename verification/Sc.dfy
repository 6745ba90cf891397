/** Arithmetic modulo the group order in radix 2^21 (src/crypto/ed25519/sc.c). */
module Sc {
  import opened Words
  import opened Bytes

  /** The order of the base point, 2^252 + 27742317777372353535851937790883648493. */
  const L: int := 0x10000000_00000000_00000000_00000000_14def9de_a2f79cd6_5812631a_5cf5d3ed

  lemma OrderIs()
    ensures L == Pow2(252) + 27742317777372353535851937790883648493
  {
    hide Pow2;
    Pow2of32();
    Powers();
    SmallPowers();
    Pow2Add(32, 32);
    Pow2Add(64, 64);
    Pow2Add(128, 64);
    Pow2Add(192, 32);
    Pow2Add(224, 24);
    Pow2Add(248, 4);
  }

  ghost predicate CongL(a: int, b: int) {
    exists k :: IsQuotientL(a, b, k)
  }

  ghost predicate IsQuotientL(a: int, b: int, k: int) {
    a == b + k * L
  }

  lemma CongLBy(a: int, b: int, k: int)
    requires a == b + k * L
    ensures CongL(a, b)
  {
    assert IsQuotientL(a, b, k);
  }

  lemma QuotientL(a: int, b: int) returns (k: int)
    requires CongL(a, b)
    ensures a == b + k * L
  {
    k :| IsQuotientL(a, b, k);
  }

  lemma CongLTrans(a: int, b: int, c: int)
    requires CongL(a, b) && CongL(b, c)
    ensures CongL(a, c)
  {
    var k := QuotientL(a, b);
    var m := QuotientL(b, c);
    CongLBy(a, c, k + m);
  }

  lemma ResidueL(a: int, b: int)
    requires CongL(a, b) && 0 <= a < L
    ensures a == b % L
  {
    var k := QuotientL(a, b);
    ModUnique(b, L, -k, a);
  }

  /** The integer with limbs s in radix 2^21. */
  function Value(s: seq<i64>): int {
    if s == [] then 0 else s[0] as int + 0x200000 * Value(s[1..])
  }

  function Radix(i: nat): int {
    if i == 0 then 1 else 0x200000 * Radix(i - 1)
  }

  lemma {:induction false} UpdateValue(s: seq<i64>, i: nat, v: i64)
    requires i < |s|
    ensures Value(s[i := v]) == Value(s) + Radix(i) * (v as int - s[i] as int)
  {
    var t := s[i := v];
    if i == 0 {
      assert t[1..] == s[1..];
    } else {
      assert t[1..] == s[1..][i - 1 := v];
      UpdateValue(s[1..], i - 1, v);
      Scale(Radix(i - 1), v as int - s[i] as int);
    }
  }

  lemma Scale(r: int, d: int)
    ensures 0x200000 * (r * d) == (0x200000 * r) * d
  {}

  /** Limbs i..j are at most b in absolute value. */
  predicate Within(s: seq<i64>, i: nat, j: nat, b: int) {
    j <= |s| && forall k :: i <= k < j ==> -b <= s[k] as int <= b
  }

  /** carry = (s[i] + (1 << 20)) >> 21; s[i + 1] += carry; s[i] -= carry << 21. */
  method Round(s: seq<i64>, i: nat) returns (t: seq<i64>)
    requires |s| == 24 && i < 23
    requires -0x1000_0000_0000_0000 <= s[i] <= 0x1000_0000_0000_0000
    requires -0x1000_0000_0000_0000 <= s[i + 1] <= 0x1000_0000_0000_0000
    ensures |t| == 24 && t == s[i := t[i]][i + 1 := t[i + 1]]
    ensures -0x100000 <= t[i] < 0x100000
    ensures s[i] as int + 0x200000 * s[i + 1] as int == t[i] as int + 0x200000 * t[i + 1] as int
    ensures Value(t) == Value(s)
  {
    hide Value;
    var carry := (s[i] + 0x100000) / 0x200000;
    t := s[i := s[i] - carry * 0x200000][i + 1 := s[i + 1] + carry];
    CarryValue(s, i, t[i], t[i + 1]);
  }

  /** carry = s[i] >> 21; s[i + 1] += carry; s[i] -= carry << 21. */
  method Floor(s: seq<i64>, i: nat) returns (t: seq<i64>)
    requires |s| == 24 && i < 23
    requires -0x1000_0000_0000_0000 <= s[i] <= 0x1000_0000_0000_0000
    requires -0x1000_0000_0000_0000 <= s[i + 1] <= 0x1000_0000_0000_0000
    ensures |t| == 24 && t == s[i := t[i]][i + 1 := t[i + 1]]
    ensures 0 <= t[i] < 0x200000
    ensures s[i] as int + 0x200000 * s[i + 1] as int == t[i] as int + 0x200000 * t[i + 1] as int
    ensures Value(t) == Value(s)
  {
    hide Value;
    var carry := s[i] / 0x200000;
    t := s[i := s[i] - carry * 0x200000][i + 1 := s[i + 1] + carry];
    CarryValue(s, i, t[i], t[i + 1]);
  }

  lemma CarryValue(s: seq<i64>, i: nat, x: i64, y: i64)
    requires i + 1 < |s|
    requires s[i] as int + 0x200000 * s[i + 1] as int == x as int + 0x200000 * y as int
    ensures Value(s[i := x][i + 1 := y]) == Value(s)
  {
    hide Value;
    UpdateValue(s, i, x);
    UpdateValue(s[i := x], i + 1, y);
    var d := y as int - s[i + 1] as int;
    Scale(Radix(i), d);
    MulNeg(Radix(i), d, x as int - s[i] as int);
  }

  lemma MulNeg(r: int, d: int, e: int)
    requires e == -0x200000 * d
    ensures r * e == -(0x200000 * (r * d))
  {}

  /** Add s[k] times the digits of 2^252 - L twelve places lower; s[k] = 0. */
  method Fold(s: seq<i64>, k: nat, ghost b: int) returns (t: seq<i64>)
    requires |s| == 24 && 12 <= k < 24
    requires 0 <= b <= 0x10_0000_0000 && -b <= s[k] as int <= b
    requires Within(s, k - 12, k - 6, 0x100_0000_0000_0000)
    ensures |t| == 24 && t[k] == 0
    ensures forall i :: 0 <= i < 24 && i != k && !(k - 12 <= i < k - 6) ==> t[i] == s[i]
    ensures forall i :: k - 12 <= i < k - 6 ==> -997805 * b <= t[i] as int - s[i] as int <= 997805 * b
    ensures CongL(Value(t), Value(s))
    ensures k == 12 ==> Value(t) == Value(s) - s[12] as int * L
  {
    hide Value, Radix, CongL;
    var h := s[k];
    var w0 := s[k - 12] + h * 666643;
    var w1 := s[k - 11] + h * 470296;
    var w2 := s[k - 10] + h * 654183;
    var w3 := s[k - 9] - h * 997805;
    var w4 := s[k - 8] + h * 136657;
    var w5 := s[k - 7] - h * 683901;
    t := s[k - 12 := w0][k - 11 := w1][k - 10 := w2][k - 9 := w3][k - 8 := w4][k - 7 := w5][k := 0];
    FoldValue(s, k, w0, w1, w2, w3, w4, w5);
  }

  lemma FoldValue(s: seq<i64>, k: nat, w0: i64, w1: i64, w2: i64, w3: i64, w4: i64, w5: i64)
    requires 12 <= k < |s|
    requires w0 as int == s[k - 12] as int + s[k] as int * 666643
    requires w1 as int == s[k - 11] as int + s[k] as int * 470296
    requires w2 as int == s[k - 10] as int + s[k] as int * 654183
    requires w3 as int == s[k - 9] as int - s[k] as int * 997805
    requires w4 as int == s[k - 8] as int + s[k] as int * 136657
    requires w5 as int == s[k - 7] as int - s[k] as int * 683901
    ensures var t := s[k - 12 := w0][k - 11 := w1][k - 10 := w2][k - 9 := w3][k - 8 := w4][k - 7 := w5][k := 0];
            CongL(Value(t), Value(s)) && (k == 12 ==> Value(t) == Value(s) - s[12] as int * L)
  {
    hide Value, CongL;
    var a := s[k - 12 := w0];
    var b := a[k - 11 := w1];
    var c := b[k - 10 := w2];
    var d := c[k - 9 := w3];
    var e := d[k - 8 := w4];
    var f := e[k - 7 := w5];
    UpdateValue(s, k - 12, w0);
    UpdateValue(a, k - 11, w1);
    UpdateValue(b, k - 10, w2);
    UpdateValue(c, k - 9, w3);
    UpdateValue(d, k - 8, w4);
    UpdateValue(e, k - 7, w5);
    UpdateValue(f, k, 0);
    Radices(k - 12);
    var r, h := Radix(k - 12), s[k] as int;
    FoldSum(r, h);
    CongLBy(Value(f[k := 0]), Value(s), -(r * h));
  }

  lemma Radices(i: nat)
    ensures Radix(i + 1) == 0x200000 * Radix(i)
    ensures Radix(i + 2) == 0x400_0000_0000 * Radix(i)
    ensures Radix(i + 3) == 0x8000_0000_0000_0000 * Radix(i)
    ensures Radix(i + 4) == 0x10_0000_0000_0000_0000_0000 * Radix(i)
    ensures Radix(i + 5) == 0x200_0000_0000_0000_0000_0000_0000 * Radix(i)
    ensures Radix(i + 12)
            == 0x1000_0000_0000_0000_0000_0000_0000_0000_0000_0000_0000_0000_0000_0000_0000_0000 * Radix(i)
  {
    var r := Radix(i);
    assert Radix(i + 1) == 0x200000 * r;
    assert Radix(i + 2) == 0x200000 * Radix(i + 1);
    assert Radix(i + 3) == 0x200000 * Radix(i + 2);
    assert Radix(i + 4) == 0x200000 * Radix(i + 3);
    assert Radix(i + 5) == 0x200000 * Radix(i + 4);
    assert Radix(i + 6) == 0x200000 * Radix(i + 5);
    assert Radix(i + 7) == 0x200000 * Radix(i + 6);
    assert Radix(i + 8) == 0x200000 * Radix(i + 7);
    assert Radix(i + 9) == 0x200000 * Radix(i + 8);
    assert Radix(i + 10) == 0x200000 * Radix(i + 9);
    assert Radix(i + 11) == 0x200000 * Radix(i + 10);
    assert Radix(i + 12) == 0x200000 * Radix(i + 11);
  }

  lemma FoldSum(r: int, h: int)
    ensures r * (h * 666643) + (0x200000 * r) * (h * 470296) + (0x400_0000_0000 * r) * (h * 654183)
            + (0x8000_0000_0000_0000 * r) * (-h * 997805) + (0x10_0000_0000_0000_0000_0000 * r) * (h * 136657)
            + (0x200_0000_0000_0000_0000_0000_0000 * r) * (-h * 683901)
            + (0x1000_0000_0000_0000_0000_0000_0000_0000_0000_0000_0000_0000_0000_0000_0000_0000 * r) * (-h)
            == -(r * h) * L
  {}

  /** s23 down to s18 are folded. */
  method FoldHigh(s: seq<i64>) returns (t: seq<i64>)
    requires |s| == 24 && Within(s, 0, 24, 0x4000_0000)
    ensures |t| == 24 && CongL(Value(t), Value(s))
    ensures Within(t, 0, 18, 0x20_0000_0000_0000) && Within(t, 0, 6, 0x4000_0000) && Within(t, 17, 18, 0x4000_0000)
    ensures forall i :: 18 <= i < 24 ==> t[i] == 0
  {
    hide Value, CongL;
    t := Fold(s, 23, 0x4000_0000);
    var u := Fold(t, 22, 0x4000_0000);
    CongLTrans(Value(u), Value(t), Value(s));
    t := Fold(u, 21, 0x4000_0000);
    CongLTrans(Value(t), Value(u), Value(s));
    u := Fold(t, 20, 0x4000_0000);
    CongLTrans(Value(u), Value(t), Value(s));
    t := Fold(u, 19, 0x4000_0000);
    CongLTrans(Value(t), Value(u), Value(s));
    u := Fold(t, 18, 0x4000_0000);
    CongLTrans(Value(u), Value(t), Value(s));
    t := u;
  }

  /** Rounding carries out of s[first], s[first + 2], ..., s[last - 2], none above b. */
  method RoundPass(s: seq<i64>, first: nat, last: nat, ghost b: int) returns (t: seq<i64>)
    requires |s| == 24 && first <= last <= 24 && (last - first) % 2 == 0
    requires 0 <= b <= 0x10_0000_0000 && Within(s, first, last, 0x1f_ffff * b)
    ensures |t| == 24 && Value(t) == Value(s)
    ensures forall i :: first <= i < last && (i - first) % 2 == 0 ==> -0x100000 <= t[i] < 0x100000
    ensures forall i :: first <= i < last && (i - first) % 2 == 1 ==> -b <= t[i] as int - s[i] as int <= b
    ensures forall i :: 0 <= i < 24 && !(first <= i < last) ==> t[i] == s[i]
  {
    hide Value;
    t := s;
    var k := first;
    while k < last
      invariant first <= k <= last && (k - first) % 2 == 0
      invariant |t| == 24 && Value(t) == Value(s)
      invariant forall i :: first <= i < k && (i - first) % 2 == 0 ==> -0x100000 <= t[i] < 0x100000
      invariant forall i :: first <= i < k && (i - first) % 2 == 1 ==> -b <= t[i] as int - s[i] as int <= b
      invariant forall i :: 0 <= i < 24 && !(first <= i < k) ==> t[i] == s[i]
    {
      t := Round(t, k);
      k := k + 2;
    }
  }

  /** Floor carries out of s0 to s[n - 1]. */
  method FloorPass(s: seq<i64>, n: nat) returns (t: seq<i64>)
    requires |s| == 24 && n < 24
    requires Within(s, 0, n + 1, 0x200_0000_0000_0000)
    ensures |t| == 24 && Value(t) == Value(s)
    ensures forall i :: 0 <= i < n ==> 0 <= t[i] < 0x200000
    ensures -0x20_0000_0000 <= t[n] as int - s[n] as int <= 0x20_0000_0000
    ensures forall i :: n < i < 24 ==> t[i] == s[i]
  {
    hide Value;
    t := s;
    for k := 0 to n
      invariant |t| == 24 && Value(t) == Value(s)
      invariant forall i :: 0 <= i < k ==> 0 <= t[i] < 0x200000
      invariant -0x20_0000_0000 <= t[k] as int - s[k] as int <= 0x20_0000_0000
      invariant forall i :: k < i < 24 ==> t[i] == s[i]
    {
      t := Floor(t, k);
    }
  }

  /** s17 down to s12 are folded. */
  method FoldLow(s: seq<i64>) returns (t: seq<i64>)
    requires |s| == 24 && Within(s, 0, 18, 0x2_0000_0000)
    requires forall i :: 18 <= i < 24 ==> s[i] == 0
    ensures |t| == 24 && CongL(Value(t), Value(s))
    ensures Within(t, 0, 12, 0x100_0000_0000_0000) && Within(t, 11, 12, 0x2_0000_0000)
    ensures forall i :: 12 <= i < 24 ==> t[i] == 0
  {
    hide Value, CongL;
    t := Fold(s, 17, 0x2_0000_0000);
    var u := Fold(t, 16, 0x2_0000_0000);
    CongLTrans(Value(u), Value(t), Value(s));
    t := Fold(u, 15, 0x2_0000_0000);
    CongLTrans(Value(t), Value(u), Value(s));
    u := Fold(t, 14, 0x2_0000_0000);
    CongLTrans(Value(u), Value(t), Value(s));
    t := Fold(u, 13, 0x2_0000_0000);
    CongLTrans(Value(t), Value(u), Value(s));
    u := Fold(t, 12, 0x2_0000_0000);
    CongLTrans(Value(u), Value(t), Value(s));
    t := u;
  }

  lemma Step(s: seq<i64>, i: nat)
    requires i < |s|
    ensures Value(s[i..]) == s[i] as int + 0x200000 * Value(s[i + 1..])
  {
    assert s[i..][1..] == s[i + 1..];
  }

  /** d0 + 2^21 d1 + ... + 2^231 d11. */
  function Sum12(d0: int, d1: int, d2: int, d3: int, d4: int, d5: int, d6: int, d7: int, d8: int, d9: int, d10: int,
                 d11: int): int {
    d0 + 0x200000 * (d1 + 0x200000 * (d2 + 0x200000 * (d3 + 0x200000 * (d4 + 0x200000 * (d5 + 0x200000 * (d6 +
    0x200000 * (d7 + 0x200000 * (d8 + 0x200000 * (d9 + 0x200000 * (d10 + 0x200000 * d11))))))))))
  }

  function Low(s: seq<i64>): int
    requires |s| >= 12
  {
    Sum12(s[0] as int, s[1] as int, s[2] as int, s[3] as int, s[4] as int, s[5] as int, s[6] as int, s[7] as int,
          s[8] as int, s[9] as int, s[10] as int, s[11] as int)
  }

  lemma Unroll12(s: seq<i64>)
    requires |s| >= 12
    ensures Value(s) == Low(s) + TWO252 * Value(s[12..])
  {
    hide Value;
    assert s[0..] == s;
    Step(s, 0);
    Step(s, 1);
    Step(s, 2);
    Step(s, 3);
    Step(s, 4);
    Step(s, 5);
    Step(s, 6);
    Step(s, 7);
    Step(s, 8);
    Step(s, 9);
    Step(s, 10);
    Step(s, 11);
  }

  const TWO252: int := 0x1000_0000_0000_0000_0000_0000_0000_0000_0000_0000_0000_0000_0000_0000_0000_0000

  lemma {:induction false} ZeroValue(s: seq<i64>)
    requires forall i :: 0 <= i < |s| ==> s[i] == 0
    ensures Value(s) == 0
  {
    if s != [] { ZeroValue(s[1..]); }
  }

  /** Twelve limbs and a thirteenth, the rest being zero. */
  lemma Value13(s: seq<i64>)
    requires |s| == 24 && forall i :: 13 <= i < 24 ==> s[i] == 0
    ensures Value(s) == Low(s) + TWO252 * s[12] as int
  {
    hide Low, Value;
    Unroll12(s);
    Step(s, 12);
    ZeroValue(s[13..]);
  }

  /** After the rounding carries the value is less than 2^252 in absolute value. */
  lemma RoundedBound(d0: int, d1: int, d2: int, d3: int, d4: int, d5: int, d6: int, d7: int, d8: int, d9: int,
                     d10: int, d11: int)
    requires -0x200_0000_0000_0000 <= d0 <= 0x200_0000_0000_0000
    requires -0x200_0000_0000_0000 <= d1 <= 0x200_0000_0000_0000
    requires -0x200_0000_0000_0000 <= d2 <= 0x200_0000_0000_0000
    requires -0x200_0000_0000_0000 <= d3 <= 0x200_0000_0000_0000
    requires -0x200_0000_0000_0000 <= d4 <= 0x200_0000_0000_0000
    requires -0x200_0000_0000_0000 <= d5 <= 0x200_0000_0000_0000
    requires -0x20_0000_0000 <= d6 <= 0x20_0000_0000
    requires -0x20_0000_0000 <= d7 <= 0x20_0000_0000
    requires -0x20_0000_0000 <= d8 <= 0x20_0000_0000
    requires -0x20_0000_0000 <= d9 <= 0x20_0000_0000
    requires -0x20_0000_0000 <= d10 <= 0x20_0000_0000
    requires -0x100000 <= d11 <= 0x100000
    ensures -TWO252 < Sum12(d0, d1, d2, d3, d4, d5, d6, d7, d8, d9, d10, d11) < TWO252
  {}

  lemma DigitsBound(d0: int, d1: int, d2: int, d3: int, d4: int, d5: int, d6: int, d7: int, d8: int, d9: int,
                    d10: int, d11: int)
    requires 0 <= d0 < 0x200000 && 0 <= d1 < 0x200000
    requires 0 <= d2 < 0x200000 && 0 <= d3 < 0x200000
    requires 0 <= d4 < 0x200000 && 0 <= d5 < 0x200000
    requires 0 <= d6 < 0x200000 && 0 <= d7 < 0x200000
    requires 0 <= d8 < 0x200000 && 0 <= d9 < 0x200000
    requires 0 <= d10 < 0x200000 && 0 <= d11 < 0x200000
    ensures 0 <= Sum12(d0, d1, d2, d3, d4, d5, d6, d7, d8, d9, d10, d11) < TWO252
  {}

  lemma TopDigit(d0: int, d1: int, d2: int, d3: int, d4: int, d5: int, d6: int, d7: int, d8: int, d9: int, d10: int,
                 d11: int)
    requires 0 <= d0 < 0x200000 && 0 <= d1 < 0x200000
    requires 0 <= d2 < 0x200000 && 0 <= d3 < 0x200000
    requires 0 <= d4 < 0x200000 && 0 <= d5 < 0x200000
    requires 0 <= d6 < 0x200000 && 0 <= d7 < 0x200000
    requires 0 <= d8 < 0x200000 && 0 <= d9 < 0x200000
    requires 0 <= d10 < 0x200000
    requires 0 <= Sum12(d0, d1, d2, d3, d4, d5, d6, d7, d8, d9, d10, d11) < L
    ensures 0 <= d11 <= 0x200000
  {}

  /** Limbs s0 to s11 of a reduced scalar, the last one at most 2^21. */
  predicate Canonical(t: seq<i64>) {
    && |t| == 24
    && (forall i :: 0 <= i < 11 ==> 0 <= t[i] < 0x200000)
    && 0 <= t[11] <= 0x200000
    && (forall i :: 12 <= i < 24 ==> t[i] == 0)
  }

  /** From the first folding to the rounding carries out of s11. */
  method ReduceRound(s: seq<i64>) returns (t: seq<i64>)
    requires |s| == 24 && Within(s, 0, 24, 0x4000_0000)
    ensures |t| == 24 && CongL(Value(t), Value(s))
    ensures Within(t, 0, 11, 0x11_0000_0000) && Within(t, 11, 12, 0x100000) && Within(t, 12, 13, 0x10_0000_0000)
    ensures forall i :: 13 <= i < 24 ==> t[i] == 0
  {
    hide Value, CongL;
    t := FoldHigh(s);
    ghost var v := Value(t);
    t := RoundPass(t, 6, 18, 0x1_1000_0000);
    t := RoundPass(t, 7, 17, 0x1_1000_0000);
    var u := FoldLow(t);
    CongLTrans(Value(u), v, Value(s));
    t := RoundPass(u, 0, 12, 0x10_0000_0000);
    t := RoundPass(t, 1, 13, 0x10_0000_0000);
  }

  /** Everything after the limbs are loaded, or multiplied: the canonical residue. */
  method Reduce(s: seq<i64>) returns (t: seq<i64>)
    requires |s| == 24 && Within(s, 0, 24, 0x4000_0000)
    ensures Canonical(t) && Value(t) == Value(s) % L
  {
    hide Value, CongL, Low;
    var r := ReduceRound(s);
    var u := Fold(r, 12, 0x10_0000_0000);
    CongLTrans(Value(u), Value(r), Value(s));
    FoldedBound(u);
    t := FloorPass(u, 12);
    assert -TWO252 < Value(t) < TWO252;
    CarriedTop(t);
    ghost var w := t;
    t := Fold(t, 12, 1);
    CongLTrans(Value(t), Value(w), Value(s));
    t := FloorPass(t, 11);
    Value13(t);
    ResidueL(Value(t), Value(s));
    CanonicalTop(t);
  }

  lemma FoldedBound(u: seq<i64>)
    requires |u| == 24 && Within(u, 0, 6, 0x200_0000_0000_0000) && Within(u, 6, 11, 0x20_0000_0000)
    requires Within(u, 11, 12, 0x100000) && forall i :: 12 <= i < 24 ==> u[i] == 0
    ensures -TWO252 < Value(u) < TWO252
  {
    hide Value, Sum12;
    Value13(u);
    RoundedBound(u[0] as int, u[1] as int, u[2] as int, u[3] as int, u[4] as int, u[5] as int, u[6] as int,
                 u[7] as int, u[8] as int, u[9] as int, u[10] as int, u[11] as int);
  }

  /** The second folding takes s12 to be 0 or -1 and leaves a value in 0..L. */
  lemma CarriedTop(t: seq<i64>)
    requires |t| == 24 && (forall i :: 0 <= i < 12 ==> 0 <= t[i] < 0x200000)
    requires forall i :: 13 <= i < 24 ==> t[i] == 0
    requires -TWO252 < Value(t) < TWO252
    ensures t[12] == 0 || t[12] == -1
    ensures 0 <= Value(t) - t[12] as int * L < L
  {
    hide Value, Sum12;
    Value13(t);
    DigitsBound(t[0] as int, t[1] as int, t[2] as int, t[3] as int, t[4] as int, t[5] as int, t[6] as int,
                t[7] as int, t[8] as int, t[9] as int, t[10] as int, t[11] as int);
  }

  lemma CanonicalTop(t: seq<i64>)
    requires |t| == 24 && (forall i :: 0 <= i < 11 ==> 0 <= t[i] < 0x200000)
    requires 0 <= Low(t) < L
    ensures 0 <= t[11] <= 0x200000
  {
    hide Sum12;
    TopDigit(t[0] as int, t[1] as int, t[2] as int, t[3] as int, t[4] as int, t[5] as int, t[6] as int, t[7] as int,
             t[8] as int, t[9] as int, t[10] as int, t[11] as int);
  }
}
