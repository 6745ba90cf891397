/** The two fixed exponentiations of src/crypto/ed25519/fe.c. */
module FePow {
  import opened Words
  import opened Congruence
  import opened Bytes
  import opened Fe

  function Pow(z: int, e: nat): int {
    if e == 0 then 1 else z * Pow(z, e - 1)
  }

  lemma {:induction false} PowAdd(z: int, a: nat, b: nat)
    ensures Pow(z, a + b) == Pow(z, a) * Pow(z, b)
  {
    if a > 0 {
      PowAdd(z, a - 1, b);
      assert Pow(z, a + b) == z * Pow(z, a - 1 + b);
      Associate(z, Pow(z, a - 1), Pow(z, b));
    }
  }

  lemma Associate(x: int, y: int, z: int)
    ensures x * (y * z) == (x * y) * z
  {}

  /** f holds z^e modulo P. */
  ghost predicate Holds(f: Fe, z: int, e: nat) {
    Wide(f) && Cong(Value(f), Pow(z, e))
  }

  method MulPowers(f: Fe, g: Fe, ghost z: int, ghost a: nat, ghost b: nat) returns (h: Fe)
    requires Holds(f, z, a) && Holds(g, z, b)
    ensures Tight(h) && Holds(h, z, a + b)
  {
    hide Value, Pow, ProductLimbs;
    h := FeMul(f, g);
    CongMul(Value(f), Pow(z, a), Value(g), Pow(z, b));
    PowAdd(z, a, b);
    CongTrans(Value(h), Value(f) * Value(g), Pow(z, a + b));
  }

  method SquarePower(f: Fe, ghost z: int, ghost a: nat) returns (h: Fe)
    requires Holds(f, z, a)
    ensures Tight(h) && Holds(h, z, 2 * a)
  {
    hide Value, Pow, ProductLimbs;
    h := FeSq(f);
    CongMul(Value(f), Pow(z, a), Value(f), Pow(z, a));
    PowAdd(z, a, a);
    CongTrans(Value(h), Value(f) * Value(f), Pow(z, 2 * a));
  }

  /** a * 2^n, the exponent after n squarings. */
  function Doubled(a: nat, n: nat): nat {
    if n == 0 then a else 2 * Doubled(a, n - 1)
  }

  /** fe_sq(t, f) followed by for (i = 1; i < n; ++i) fe_sq(t, t). */
  method SquareTimes(f: Fe, n: nat, ghost z: int, ghost a: nat) returns (t: Fe)
    requires Holds(f, z, a) && n >= 1
    ensures Tight(t) && Holds(t, z, Doubled(a, n))
  {
    hide Holds;
    t := SquarePower(f, z, a);
    for i := 1 to n
      invariant Tight(t) && Holds(t, z, Doubled(a, i))
    {
      t := SquarePower(t, z, Doubled(a, i));
    }
  }

  /** 2^k - 1 */
  function Ones(k: nat): nat { Pow2(k) - 1 }

  /** Doubling 2^a - 1 b times and adding 2^b - 1 gives 2^(a+b) - 1. */
  lemma OnesJoin(a: nat, b: nat)
    ensures Doubled(Ones(a), b) + Ones(b) == Ones(a + b)
  {
    if b > 0 { OnesJoin(a, b - 1); }
  }

  lemma HoldsItself(f: Fe)
    requires Wide(f)
    ensures Holds(f, Value(f), 1)
  {
    hide Value;
    CongRefl(Value(f));
    assert Pow(Value(f), 1) == Value(f);
  }

  lemma SmallExponents()
    ensures Doubled(2, 2) == 8 && Ones(5) == 31
    ensures Doubled(Ones(250), 5) + 11 == Pow2(255) - 21
    ensures Doubled(Ones(250), 2) + 1 == Pow2(252) - 3
  {
    OnesJoin(250, 5);
    OnesJoin(250, 2);
    assert Pow2(5) == 32 && Pow2(2) == 4;
  }

  /** out = z^(2^255 - 21) */
  method FeInvert(f: Fe) returns (out: Fe)
    requires Wide(f)
    ensures Tight(out)
    ensures Cong(Value(out), Pow(Value(f), Pow2(255) - 21))
  {
    hide Value, Cong, Doubled, Ones, Pow2, Pow, Tight, Wide;
    ghost var z := Value(f);
    HoldsItself(f);
    SmallExponents();
    var t0 := SquarePower(f, z, 1);
    var t1 := SquareTimes(t0, 2, z, 2);
    t1 := MulPowers(f, t1, z, 1, 8);
    t0 := MulPowers(t0, t1, z, 2, 9);
    var t2 := SquarePower(t0, z, 11);
    t1 := MulPowers(t1, t2, z, 9, 22);
    t2 := SquareTimes(t1, 5, z, Ones(5));
    OnesJoin(5, 5);
    t1 := MulPowers(t2, t1, z, Doubled(Ones(5), 5), Ones(5));
    t2 := SquareTimes(t1, 10, z, Ones(10));
    OnesJoin(10, 10);
    t2 := MulPowers(t2, t1, z, Doubled(Ones(10), 10), Ones(10));
    var t3 := SquareTimes(t2, 20, z, Ones(20));
    OnesJoin(20, 20);
    t2 := MulPowers(t3, t2, z, Doubled(Ones(20), 20), Ones(20));
    t2 := SquareTimes(t2, 10, z, Ones(40));
    OnesJoin(40, 10);
    t1 := MulPowers(t2, t1, z, Doubled(Ones(40), 10), Ones(10));
    t2 := SquareTimes(t1, 50, z, Ones(50));
    OnesJoin(50, 50);
    t2 := MulPowers(t2, t1, z, Doubled(Ones(50), 50), Ones(50));
    t3 := SquareTimes(t2, 100, z, Ones(100));
    OnesJoin(100, 100);
    t2 := MulPowers(t3, t2, z, Doubled(Ones(100), 100), Ones(100));
    t2 := SquareTimes(t2, 50, z, Ones(200));
    OnesJoin(200, 50);
    t1 := MulPowers(t2, t1, z, Doubled(Ones(200), 50), Ones(50));
    t1 := SquareTimes(t1, 5, z, Ones(250));
    out := MulPowers(t1, t0, z, Doubled(Ones(250), 5), 11);
  }

  /** out = z^(2^252 - 3) */
  method FePow22523(f: Fe) returns (out: Fe)
    requires Wide(f)
    ensures Tight(out)
    ensures Cong(Value(out), Pow(Value(f), Pow2(252) - 3))
  {
    hide Value, Cong, Doubled, Ones, Pow2, Pow, Tight, Wide;
    ghost var z := Value(f);
    HoldsItself(f);
    SmallExponents();
    var t0 := SquarePower(f, z, 1);
    var t1 := SquareTimes(t0, 2, z, 2);
    t1 := MulPowers(f, t1, z, 1, 8);
    t0 := MulPowers(t0, t1, z, 2, 9);
    t0 := SquarePower(t0, z, 11);
    t0 := MulPowers(t1, t0, z, 9, 22);
    t1 := SquareTimes(t0, 5, z, Ones(5));
    OnesJoin(5, 5);
    t0 := MulPowers(t1, t0, z, Doubled(Ones(5), 5), Ones(5));
    t1 := SquareTimes(t0, 10, z, Ones(10));
    OnesJoin(10, 10);
    t1 := MulPowers(t1, t0, z, Doubled(Ones(10), 10), Ones(10));
    var t2 := SquareTimes(t1, 20, z, Ones(20));
    OnesJoin(20, 20);
    t1 := MulPowers(t2, t1, z, Doubled(Ones(20), 20), Ones(20));
    t1 := SquareTimes(t1, 10, z, Ones(40));
    OnesJoin(40, 10);
    t0 := MulPowers(t1, t0, z, Doubled(Ones(40), 10), Ones(10));
    t1 := SquareTimes(t0, 50, z, Ones(50));
    OnesJoin(50, 50);
    t1 := MulPowers(t1, t0, z, Doubled(Ones(50), 50), Ones(50));
    t2 := SquareTimes(t1, 100, z, Ones(100));
    OnesJoin(100, 100);
    t1 := MulPowers(t2, t1, z, Doubled(Ones(100), 100), Ones(100));
    t1 := SquareTimes(t1, 50, z, Ones(200));
    OnesJoin(200, 50);
    t0 := MulPowers(t1, t0, z, Doubled(Ones(200), 50), Ones(50));
    t0 := SquareTimes(t0, 2, z, Ones(250));
    out := MulPowers(t0, f, z, Doubled(Ones(250), 2), 1);
  }
}
