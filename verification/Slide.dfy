/** The signed sliding-window recoding of a scalar (slide in src/crypto/ed25519/ge.c). */
module Slide {
  import opened Words
  import opened Bytes

  newtype i8 = x: int | -128 <= x < 128

  /** r[0] + 2 r[1] + 4 r[2] + ... */
  function Binary(r: seq<i8>): int {
    if r == [] then 0 else r[0] as int + 2 * Binary(r[1..])
  }

  lemma {:induction false} BinaryUpdate(r: seq<i8>, i: nat, v: i8)
    requires i < |r|
    ensures Binary(r[i := v]) == Binary(r) + Pow2(i) * (v as int - r[i] as int)
  {
    var t := r[i := v];
    if i == 0 {
      assert t[1..] == r[1..];
    } else {
      assert t[1..] == r[1..][i - 1 := v];
      BinaryUpdate(r[1..], i - 1, v);
      assert 2 * (Pow2(i - 1) * (v as int - r[i] as int)) == Pow2(i) * (v as int - r[i] as int);
    }
  }

  /** 1 & (a[i >> 3] >> (i & 7)) */
  function Bit(a: seq<byte>, i: nat): (b: i8)
    requires i < 8 * |a|
    ensures b == 0 || b == 1
  {
    (a[i / 8] as int / Pow2(i % 8) % 2) as i8
  }

  lemma {:induction false} BitsValue(a: seq<byte>, r: seq<i8>)
    requires |r| == 8 * |a| && forall i :: 0 <= i < |r| ==> r[i] == Bit(a, i)
    ensures Binary(r) == LittleEndian(a)
  {
    if a != [] {
      forall i | 0 <= i < |r[8..]| ensures r[8..][i] == Bit(a[1..], i) {
        assert r[8..][i] == r[i + 8] && (i + 8) / 8 == i / 8 + 1 && (i + 8) % 8 == i % 8;
      }
      BitsValue(a[1..], r[8..]);
      Eight(r);
      ByteBits(a, r);
    }
  }

  lemma ByteBits(a: seq<byte>, r: seq<i8>)
    requires |a| > 0 && |r| >= 8 && forall i :: 0 <= i < 8 ==> r[i] == Bit(a, i)
    ensures r[0] as int + 2 * r[1] as int + 4 * r[2] as int + 8 * r[3] as int + 16 * r[4] as int
            + 32 * r[5] as int + 64 * r[6] as int + 128 * r[7] as int == a[0] as int
  {
    hide Bit, Pow2;
    Pow2of7();
    SmallPowers();
    BitIs(a, 0, 1);
    BitIs(a, 1, 2);
    BitIs(a, 2, 4);
    BitIs(a, 3, 8);
    BitIs(a, 4, 16);
    BitIs(a, 5, 32);
    BitIs(a, 6, 64);
    BitIs(a, 7, 128);
    Base2(a[0] as int);
  }

  lemma BitIs(a: seq<byte>, i: nat, p: nat)
    requires |a| > 0 && i < 8 && p == Pow2(i)
    ensures Bit(a, i) as int == a[0] as int / p % 2
  {}

  lemma Base2(x: nat)
    requires x < 256
    ensures x % 2 + 2 * (x / 2 % 2) + 4 * (x / 4 % 2) + 8 * (x / 8 % 2) + 16 * (x / 16 % 2)
            + 32 * (x / 32 % 2) + 64 * (x / 64 % 2) + 128 * (x / 128 % 2) == x
  {
    Half(x, 1);
    Half(x, 2);
    Half(x, 4);
    Half(x, 8);
    Half(x, 16);
    Half(x, 32);
    Half(x, 64);
    Half(x, 128);
  }

  lemma Half(x: nat, p: nat)
    requires p > 0
    ensures x / p == x / p % 2 + 2 * (x / (2 * p))
  {
    DivDiv(x, p, 2);
  }

  lemma Eight(r: seq<i8>)
    requires |r| >= 8
    ensures Binary(r) == r[0] as int + 2 * r[1] as int + 4 * r[2] as int + 8 * r[3] as int + 16 * r[4] as int
                         + 32 * r[5] as int + 64 * r[6] as int + 128 * r[7] as int + 256 * Binary(r[8..])
  {
    hide Binary;
    assert r[0..] == r;
    NextBit(r, 0);
    NextBit(r, 1);
    NextBit(r, 2);
    NextBit(r, 3);
    NextBit(r, 4);
    NextBit(r, 5);
    NextBit(r, 6);
    NextBit(r, 7);
  }

  lemma NextBit(r: seq<i8>, i: nat)
    requires i < |r|
    ensures Binary(r[i..]) == r[i] as int + 2 * Binary(r[i + 1..])
  {
    assert r[i..][1..] == r[i + 1..];
  }

  predicate Bits(r: seq<i8>, i: nat) {
    forall j :: i <= j < |r| ==> r[j] == 0 || r[j] == 1
  }

  predicate Zeros(r: seq<i8>, i: nat, n: nat) {
    forall j :: i <= j < n && j < |r| ==> r[j] == 0
  }

  predicate Digit(d: i8) {
    d == 0 || (-15 <= d <= 15 && d % 2 == 1)
  }

  /** The digits below i are final: zero, or odd and followed by four zeros. */
  predicate Recoded(r: seq<i8>, i: nat) {
    forall j :: 0 <= j < i && j < |r| ==> Digit(r[j]) && (r[j] != 0 ==> Zeros(r, j + 1, j + 5))
  }

  /** The loop over k: add 2^start to the bits from start on; ok is false when the carry falls off the end. */
  method Propagate(r: array<i8>, start: nat) returns (ok: bool)
    requires r.Length == 256 && start < 256 && Bits(r[..], start)
    modifies r
    ensures Bits(r[..], start) && r[..start] == old(r[..start])
    ensures old(r[start]) == 1 ==> r[start] == 0
    ensures Binary(r[..]) == Binary(old(r[..])) + Pow2(start) - (if ok then 0 else Pow2(256))
    ensures !ok ==> Zeros(r[..], start, 256)
    ensures old(r[255]) == 0 ==> ok && (r[255] == 0 || Zeros(r[..], start, 255))
  {
    hide Binary;
    var k := start;
    ok := true;
    while k < 256
      invariant start <= k <= 256 && ok
      invariant r[..start] == old(r[..start])
      invariant Zeros(r[..], start, k)
      invariant forall j :: k <= j < 256 ==> r[j] == old(r[j])
      invariant forall j :: start <= j < k ==> old(r[j]) == 1
      invariant Binary(r[..]) + Pow2(k) == Binary(old(r[..])) + Pow2(start)
    {
      ghost var s := r[..];
      if r[k] == 0 {
        BinaryUpdate(s, k, 1);
        r[k] := 1;
        assert r[..] == s[k := 1];
        return;
      }
      BinaryUpdate(s, k, 0);
      assert Pow2(k + 1) == 2 * Pow2(k);
      r[k] := 0;
      assert r[..] == s[k := 0];
      k := k + 1;
    }
    ok := false;
  }

  /** The body of the loop over b: add the bit at i + b to the digit, or subtract it and carry, or stop. */
  method AbsorbBit(r: array<i8>, i: nat, b: nat) returns (ok: bool, stop: bool)
    requires r.Length == 256 && 1 <= b <= 6 && i + b < 256 && r[i + b] == 1 && Bits(r[..], i + b)
    requires r[i] != 0 && Digit(r[i]) && (b < 5 ==> 0 < r[i] && r[i] as int < Shift(b))
    modifies r
    ensures stop <==> b >= 5
    ensures stop ==> ok && r[..] == old(r[..])
    ensures !stop ==> r[i + b] == 0 && r[i] != 0 && Digit(r[i])
    ensures r[..i] == old(r[..i]) && Bits(r[..], i + b)
    ensures forall j :: i < j < i + b ==> r[j] == old(r[j])
    ensures b < 4 ==> ok && 0 < r[i] && r[i] as int < Shift(b + 1)
    ensures b < 4 ==> forall j :: i + b < j < 256 ==> r[j] == old(r[j])
    ensures Binary(r[..]) == Binary(old(r[..])) - (if ok then 0 else Pow2(256))
    ensures !ok ==> Zeros(r[..], i + b, 256)
    ensures old(r[255]) == 0 ==> ok && (r[255] == 0 || Zeros(r[..], i + b, 255))
  {
    hide Binary, Pow2, Shift;
    ok, stop := true, false;
    SmallShifts();
    var shifted := r[i + b] as int * Shift(b);
    assert shifted == Shift(b);
    ghost var s := r[..];
    if r[i] as int + shifted <= 15 {
      r[i] := (r[i] as int + shifted) as i8;
      r[i + b] := 0;
      BinaryMove(s, i, b, r[i]);
      assert r[..] == s[i := r[i]][i + b := 0];
    } else if r[i] as int - shifted >= -15 {
      r[i] := (r[i] as int - shifted) as i8;
      BinaryUpdate(s, i, r[i]);
      assert r[..] == s[i := r[i]];
      ShiftPow(i, b);
      ok := Propagate(r, i + b);
    } else {
      stop := true;
    }
  }

  /** The loop over b for one nonzero bit r[i]: it becomes a digit followed by four zeros. */
  method Absorb(r: array<i8>, i: nat) returns (ok: bool)
    requires r.Length == 256 && i < 256 && r[i] == 1 && Bits(r[..], i)
    modifies r
    ensures r[..i] == old(r[..i]) && Bits(r[..], i + 1)
    ensures r[i] != 0 && Digit(r[i]) && Zeros(r[..], i + 1, i + 5)
    ensures Binary(r[..]) == Binary(old(r[..])) - (if ok then 0 else Pow2(256))
    ensures !ok ==> i < 252 && Zeros(r[..], i + 1, 256)
    ensures i == 255 || old(r[255]) == 0 ==> ok && (r[255] == 0 || Zeros(r[..], i + 1, 255))
  {
    hide Binary, Pow2, Shift;
    ok := true;
    SmallShifts();
    var b := 1;
    while b <= 6 && i + b < 256
      invariant 1 <= b <= 7 && r[..i] == old(r[..i]) && Bits(r[..], i + 1)
      invariant r[i] != 0 && Digit(r[i]) && Zeros(r[..], i + 1, if b < 5 then i + b else i + 5)
      invariant b < 5 ==> ok && 0 < r[i] && r[i] as int < Shift(b) && forall j :: i + b <= j < 256 ==> r[j] == old(r[j])
      invariant Binary(r[..]) == Binary(old(r[..])) - (if ok then 0 else Pow2(256))
      invariant !ok ==> i < 252 && Zeros(r[..], i + 1, 256)
      invariant i == 255 || old(r[255]) == 0 ==> ok && (r[255] == 0 || Zeros(r[..], i + 1, 255))
    {
      if r[i + b] != 0 {
        var stop;
        ok, stop := AbsorbBit(r, i, b);
        if stop { break; }
      }
      b := b + 1;
    }
  }

  lemma SmallShifts()
    ensures Shift(1) == 2 && Shift(2) == 4 && Shift(3) == 8 && Shift(4) == 16 && Shift(5) == 32 && Shift(6) == 64
  {}

  /** 1 << b */
  function Shift(b: nat): int {
    if b == 0 then 1 else 2 * Shift(b - 1)
  }

  lemma {:induction false} ShiftPow(i: nat, b: nat)
    ensures Pow2(i + b) == Pow2(i) * Shift(b)
  {
    if b > 0 { ShiftPow(i, b - 1); }
  }

  /** The bit at i + b moves into the digit at i. */
  lemma BinaryMove(s: seq<i8>, i: nat, b: nat, v: i8)
    requires 0 < b && i + b < |s| && v as int == s[i] as int + s[i + b] as int * Shift(b)
    ensures Binary(s[i := v][i + b := 0]) == Binary(s)
  {
    hide Binary, Pow2, Shift;
    BinaryUpdate(s, i, v);
    BinaryUpdate(s[i := v], i + b, 0);
    ShiftPow(i, b);
    assert Pow2(i) * (s[i + b] as int * Shift(b)) == (Pow2(i) * Shift(b)) * s[i + b] as int;
  }

  /** n is the value of 256 such digits. */
  ghost predicate HasRecoding(n: int) {
    exists t: seq<i8> :: |t| == 256 && Recoded(t, 256) && Binary(t) == n
  }

  /** Recodings that end in four zeros are determined by their value modulo 2^n. */
  lemma {:induction false} RecodingUnique(r: seq<i8>, t: seq<i8>, k: int)
    requires |r| == |t| && Recoded(r, |r|) && Recoded(t, |t|) && Zeros(r, if |r| < 4 then 0 else |r| - 4, |r|)
    requires Binary(r) == Binary(t) + k * Pow2(|r|)
    ensures r == t
  {
    if r != [] {
      var n := |r| - 1;
      FirstDigit(r, t, k);
      TailRecoded(r);
      TailRecoded(t);
      assert k * Pow2(n + 1) == 2 * (k * Pow2(n));
      RecodingUnique(r[1..], t[1..], k);
      assert r == [r[0]] + r[1..] && t == [t[0]] + t[1..];
    }
  }

  lemma TailRecoded(r: seq<i8>)
    requires r != [] && Recoded(r, |r|)
    ensures Recoded(r[1..], |r| - 1)
  {
    forall j | 0 <= j < |r| - 1 && r[1..][j] != 0 ensures Zeros(r[1..], j + 1, j + 5) {
      assert Zeros(r, j + 2, j + 6);
    }
  }

  lemma FirstDigit(r: seq<i8>, t: seq<i8>, k: int)
    requires 0 < |r| == |t| && Recoded(r, |r|) && Recoded(t, |t|) && Zeros(r, if |r| < 4 then 0 else |r| - 4, |r|)
    requires Binary(r) == Binary(t) + k * Pow2(|r|)
    ensures r[0] == t[0]
  {
    hide Binary, Pow2;
    Parity(r, t, k);
    if r[0] != 0 {
      WideStep(k, |r|);
      Five(r);
      Five(t);
      FourZeros(r);
      FourZeros(t);
      SameDigit(r[0] as int, t[0] as int, Binary(r[5..]), Binary(t[5..]) + k * Pow2(|r| - 5));
    }
  }

  lemma Parity(r: seq<i8>, t: seq<i8>, k: int)
    requires 0 < |r| == |t| && Digit(r[0]) && Digit(t[0]) && Binary(r) == Binary(t) + k * Pow2(|r|)
    ensures r[0] == 0 <==> t[0] == 0
  {
    var p := k * Pow2(|r| - 1);
    Twice(k, |r|);
    OddOrEven(r[0] as int, t[0] as int, Binary(r[1..]), Binary(t[1..]) + p);
  }

  lemma Twice(k: int, n: nat)
    requires n > 0
    ensures k * Pow2(n) == 2 * (k * Pow2(n - 1))
  {}

  lemma OddOrEven(x: int, y: int, a: int, b: int)
    requires x + 2 * a == y + 2 * b && (x == 0 || x % 2 == 1) && (y == 0 || y % 2 == 1)
    ensures x == 0 <==> y == 0
  {}

  lemma SameDigit(x: int, y: int, a: int, b: int)
    requires x + 32 * a == y + 32 * b && -15 <= x <= 15 && -15 <= y <= 15
    ensures x == y
  {}

  lemma WideStep(k: int, n: nat)
    requires n >= 5
    ensures k * Pow2(n) == 32 * (k * Pow2(n - 5))
  {
    SmallPowers();
    Pow2Add(5, n - 5);
  }

  lemma FourZeros(r: seq<i8>)
    requires |r| >= 5 && Recoded(r, |r|) && r[0] != 0
    ensures r[1] == r[2] == r[3] == r[4] == 0
  {
    assert Zeros(r, 1, 5);
  }

  lemma Five(r: seq<i8>)
    requires |r| >= 5
    ensures Binary(r) == r[0] as int + 2 * r[1] as int + 4 * r[2] as int + 8 * r[3] as int + 16 * r[4] as int
                         + 32 * Binary(r[5..])
  {
    hide Binary;
    assert r[0..] == r;
    NextBit(r, 0);
    NextBit(r, 1);
    NextBit(r, 2);
    NextBit(r, 3);
    NextBit(r, 4);
  }

  /** The carry runs off the top of the k bits of u: at an odd position, with bit 4 set, the rest is rounded up, and it
      is lost if that was all ones. */
  predicate Loses(u: nat, k: nat)
    decreases k
  {
    if k < 5 then false
    else if u % 2 == 0 then Loses(u / 2, k - 1)
    else if u % 32 < 16 then Loses(u / 32, k - 5)
    else u / 32 + 1 == Pow2(k - 5) || Loses(u / 32 + 1, k - 5)
  }

  /** The digits of u in k places, or of u - 2^k, with four zeros at the end, if the carry is lost. */
  lemma {:induction false} Digits(u: nat, k: nat) returns (t: seq<i8>)
    requires u < Pow2(k)
    ensures |t| == k && Recoded(t, k)
    ensures Binary(t) == u - (if Loses(u, k) then Pow2(k) else 0)
    ensures Loses(u, k) ==> k >= 5 && Zeros(t, k - 4, k)
    decreases k
  {
    hide Recoded, Binary, Zeros, Pow2;
    if k == 0 {
      t := [];
      NoDigits(u);
    } else if u % 2 == 0 {
      HalfBelow(u, k);
      var rest := Digits(u / 2, k - 1);
      t := [0] + rest;
      ZeroFirst(rest, Loses(u / 2, k - 1));
      Twice(1, k);
    } else if k < 5 {
      ShortWindow(u, k);
      t := [u as i8] + Nothing(k - 1);
      LoneDigit(u as i8, k - 1);
    } else {
      t := Window(u, k);
    }
  }

  lemma NoDigits(u: nat)
    requires u < Pow2(0)
    ensures u == 0 && Recoded([], 0) && Binary([]) == 0
  {}

  lemma HalfBelow(u: nat, k: nat)
    requires k > 0 && u < Pow2(k)
    ensures u / 2 < Pow2(k - 1)
  {}

  function Nothing(n: nat): (t: seq<i8>)
    ensures |t| == n && forall i :: 0 <= i < n ==> t[i] == 0
  {
    seq(n, _ => 0)
  }

  lemma ZeroFirst(rest: seq<i8>, lost: bool)
    requires Recoded(rest, |rest|) && (lost ==> |rest| >= 5 && Zeros(rest, |rest| - 4, |rest|))
    ensures Recoded([0] + rest, |rest| + 1) && Binary([0] + rest) == 2 * Binary(rest)
    ensures lost ==> Zeros([0] + rest, |rest| - 3, |rest| + 1)
  {
    var t := [0] + rest;
    assert t[1..] == rest;
    forall j | 0 <= j < |t| && t[j] != 0 ensures Digit(t[j]) && Zeros(t, j + 1, j + 5) {
      assert Zeros(rest, j, j + 4);
    }
  }

  lemma ShortWindow(u: nat, k: nat)
    requires 0 < k < 5 && u < Pow2(k) && u % 2 == 1
    ensures u < 16 && Digit(u as i8) && !Loses(u, k)
  {
    SmallPowers();
  }

  /** One digit and nothing above it. */
  lemma LoneDigit(d: i8, n: nat)
    requires Digit(d) && d != 0
    ensures Recoded([d] + Nothing(n), n + 1) && Binary([d] + Nothing(n)) == d as int
    ensures n >= 4 ==> Zeros([d] + Nothing(n), n - 3, n + 1)
  {
    assert ([d] + Nothing(n))[1..] == Nothing(n);
    ZeroDigits(n);
  }

  /** A digit from five bits, the digits above it, and the carry. */
  lemma {:induction false} Window(u: nat, k: nat) returns (t: seq<i8>)
    requires k >= 5 && u % 2 == 1 && u < Pow2(k)
    ensures |t| == k && Recoded(t, k)
    ensures Binary(t) == u - (if Loses(u, k) then Pow2(k) else 0)
    ensures Loses(u, k) ==> Zeros(t, k - 4, k)
    decreases k, 0
  {
    hide Recoded, Binary, Zeros, Pow2;
    var carry := if u % 32 < 16 then 0 else 1;
    var d, v := (u % 32 - 32 * carry) as i8, u / 32 + carry;
    WideStep(1, k);
    UpTo(u, k);
    if v == Pow2(k - 5) {
      t := [d] + Nothing(k - 1);
      LoneDigit(d, k - 1);
    } else {
      var rest := Digits(v, k - 5);
      t := [d] + Nothing(4) + rest;
      DigitFirst(d, rest, Loses(v, k - 5));
    }
  }

  lemma UpTo(u: nat, k: nat)
    requires k >= 5 && u < Pow2(k) == 32 * Pow2(k - 5)
    ensures u / 32 < Pow2(k - 5)
  {}

  lemma DigitFirst(d: i8, rest: seq<i8>, lost: bool)
    requires Digit(d) && d != 0 && Recoded(rest, |rest|) && (lost ==> |rest| >= 5 && Zeros(rest, |rest| - 4, |rest|))
    ensures var t := [d] + Nothing(4) + rest;
            Recoded(t, |rest| + 5) && Binary(t) == d as int + 32 * Binary(rest)
            && (lost ==> Zeros(t, |rest| + 1, |rest| + 5))
  {
    var t := [d] + Nothing(4) + rest;
    Five(t);
    assert t[5..] == rest;
    forall j | 0 <= j < |t| && t[j] != 0 ensures Digit(t[j]) && Zeros(t, j + 1, j + 5) {
      if j >= 5 { assert t[j] == rest[j - 5] && Zeros(rest, j - 4, j); }
    }
  }

  /** A scalar has a recoding exactly when no carry is lost: a matter of its bits, window by window. */
  lemma RecodingExactly(n: nat)
    requires n < Pow2(256)
    ensures HasRecoding(n) <==> !Loses(n, 256)
  {
    hide Binary, Pow2, Recoded, Loses, Zeros;
    var t := Digits(n, 256);
    if Loses(n, 256) { NoOtherRecoding(t, n); }
  }

  /** For scalars with only their top five bits, w: lost exactly when w is odd and at least 16. So 2^255 + 2^251 loses
      its carry and 2^255 + 2^252 does not. */
  lemma {:induction false} TopWindow(w: nat, k: nat)
    requires w < 32
    ensures Loses(w * Pow2(k), k + 5) <==> w % 2 == 1 && w >= 16
  {
    if k == 0 {
      assert w * Pow2(0) == w;
      Pow2of7();
    } else if w == 0 {
      TopWindow(w, k - 1);
    } else {
      var u := w * Pow2(k - 1);
      assert w * Pow2(k) == 2 * u;
      TopWindow(w, k - 1);
    }
  }

  /** The digits of a scalar: each zero, or odd, at most 15 in absolute value and followed by four zeros. The carry is
      lost exactly for scalars that have no such digits. */
  method SlideDigits(r: array<i8>, a: seq<byte>)
    requires r.Length == 256 && |a| == 32
    modifies r
    ensures Recoded(r[..], 256)
    ensures Binary(r[..]) == LittleEndian(a) || (a[31] > 127 && Binary(r[..]) == LittleEndian(a) - Pow2(256))
    ensures Binary(r[..]) == LittleEndian(a) <==> HasRecoding(LittleEndian(a))
    ensures Binary(r[..]) == LittleEndian(a) <==> !Loses(LittleEndian(a), 256)
  {
    hide Binary, Pow2, LittleEndian, Loses;
    LittleEndianBound(a);
    RecodingExactly(LittleEndian(a));
    FillBits(r, a);
    ghost var lost := false;
    for i := 0 to 256
      invariant Recoded(r[..], i) && Bits(r[..], i)
      invariant Binary(r[..]) == LittleEndian(a) - (if lost then Pow2(256) else 0)
      invariant lost ==> a[31] > 127 && Zeros(r[..], i, 256) && Zeros(r[..], 252, 256)
      invariant a[31] <= 127 ==> r[255] == 0 || Zeros(r[..], i, 255) || i == 256
    {
      if r[i] != 0 {
        ghost var s := r[..];
        var ok := Absorb(r, i);
        KeepRecoded(s, r[..], i);
        lost := lost || !ok;
      } else {
        ZeroRecoded(r[..], i);
      }
    }
    if lost { NoOtherRecoding(r[..], LittleEndian(a)); }
  }

  lemma NoOtherRecoding(r: seq<i8>, n: int)
    requires |r| == 256 && Recoded(r, 256) && Zeros(r, 252, 256) && Binary(r) == n - Pow2(256)
    ensures !HasRecoding(n)
  {
    hide Binary, Pow2, Recoded;
    forall t: seq<i8> | |t| == 256 && Recoded(t, 256) ensures Binary(t) != n {
      if Binary(t) == n { RecodingUnique(r, t, -1); }
    }
  }

  /** For instance the scalar 2^256 - 1, of 32 bytes 0xff, has none: its digits add up to -1. */
  lemma AllOnes()
    ensures LittleEndian(seq(32, _ => 0xff as byte)) == Pow2(256) - 1
    ensures !HasRecoding(LittleEndian(seq(32, _ => 0xff as byte)))
  {
    hide Pow2, Binary, LittleEndian;
    OnesValue(32);
    MinusOne(256);
    NoOtherRecoding([-1] + seq(255, _ => 0), Pow2(256) - 1);
  }

  lemma {:induction false} OnesValue(n: nat)
    ensures LittleEndian(seq(n, _ => 0xff as byte)) == Pow2(8 * n) - 1
  {
    Pow2of7();
    Powers();
    if n > 0 {
      hide Pow2;
      OnesValue(n - 1);
      assert seq(n, _ => 0xff as byte)[1..] == seq(n - 1, _ => 0xff as byte);
      Pow2Add(8, 8 * (n - 1));
    }
  }

  lemma MinusOne(n: nat)
    requires n > 0
    ensures Binary([-1] + seq(n - 1, _ => 0)) == -1
  {
    assert ([-1] + seq(n - 1, _ => 0))[1..] == seq(n - 1, _ => 0);
    ZeroDigits(n - 1);
  }

  lemma {:induction false} ZeroDigits(n: nat)
    ensures Binary(seq(n, _ => 0)) == 0
  {
    if n > 0 {
      ZeroDigits(n - 1);
      assert seq(n, _ => 0 as i8)[1..] == seq(n - 1, _ => 0 as i8);
    }
  }

  /** r[i] = 1 & (a[i >> 3] >> (i & 7)) for every i. */
  method FillBits(r: array<i8>, a: seq<byte>)
    requires r.Length == 256 && |a| == 32
    modifies r
    ensures Bits(r[..], 0) && Binary(r[..]) == LittleEndian(a) && (a[31] <= 127 ==> r[255] == 0)
  {
    hide Binary, Bit;
    for i := 0 to 256
      invariant forall j :: 0 <= j < i ==> r[j] == Bit(a, j)
    {
      r[i] := Bit(a, i);
    }
    BitsValue(a, r[..]);
    TopBit(a);
  }

  lemma TopBit(a: seq<byte>)
    requires |a| == 32
    ensures a[31] <= 127 ==> Bit(a, 255) == 0
  {
    Pow2of7();
  }

  lemma KeepRecoded(s: seq<i8>, r: seq<i8>, i: nat)
    requires i < |s| == |r| && Recoded(s, i) && s[..i] == r[..i] && s[i] != 0
    requires Digit(r[i]) && Zeros(r, i + 1, i + 5)
    ensures Recoded(r, i + 1)
  {
    forall j | 0 <= j < i && r[j] != 0 ensures Digit(r[j]) && Zeros(r, j + 1, j + 5) {
      assert s[..i][j] == r[..i][j];
      assert Zeros(s, j + 1, j + 5);
      assert i >= j + 5;
      forall k | j + 1 <= k < j + 5 ensures r[k] == 0 {
        assert s[..i][k] == r[..i][k];
      }
    }
  }

  lemma ZeroRecoded(r: seq<i8>, i: nat)
    requires i < |r| && Recoded(r, i) && r[i] == 0
    ensures Recoded(r, i + 1)
  {}
}
