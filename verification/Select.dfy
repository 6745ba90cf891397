/** Branch-free selection of a table entry (fe_cmov in src/crypto/ed25519/fe.c; equal, negative, cmov and select in
    ge.c). */
module Select {
  import opened Words
  import opened Bytes
  import opened Congruence
  import opened Fe
  import opened Edwards
  import opened Ge
  import opened Slide
  import opened Radix16

  /** A signed 32-bit limb as a word, and back. */
  function Word(x: i32): nat { x as int % 0x1_0000_0000 }

  function Signed(w: nat): i32
    requires w < 0x1_0000_0000
  {
    if w < 0x8000_0000 then w as i32 else (w - 0x1_0000_0000) as i32
  }

  /** f ^ ((f ^ g) & mask), the mask being all zeros or all ones. */
  method CmovLimb(f: i32, g: i32, mask: nat) returns (h: i32)
    requires mask == 0 || mask == 0xffff_ffff
    ensures h == if mask == 0 then f else g
  {
    hide BitXor, BitAnd;
    var x := BitXor(Word(f), Word(g));
    x := BitAnd(mask, x);
    CmovWord(Word(f), Word(g), mask);
    h := Signed(BitXor(Word(f), x));
  }

  lemma CmovWord(f: nat, g: nat, mask: nat)
    requires f < 0x1_0000_0000 && g < 0x1_0000_0000 && (mask == 0 || mask == 0xffff_ffff)
    ensures BitXor(f, BitAnd(mask, BitXor(f, g))) == if mask == 0 then f else g
  {
    hide BitXor, Pow2;
    Pow2of32();
    if mask == 0 {
      XorZero(f);
    } else {
      XorBelow(f, g, 32);
      AndMask(32, BitXor(f, g));
      ModSmall(BitXor(f, g));
      XorTwice(f, g);
    }
  }

  lemma ModSmall(x: nat)
    requires x < 0x1_0000_0000
    ensures x % 0x1_0000_0000 == x
  {}

  /** if (b) f = g, for b in {0, 1}. */
  method FeCmov(f: Fe, g: Fe, b: nat) returns (h: Fe)
    requires b <= 1
    ensures h == if b == 1 then g else f
  {
    var mask := -(b as int) % 0x1_0000_0000;
    var h0 := CmovLimb(f.t0, g.t0, mask);
    var h1 := CmovLimb(f.t1, g.t1, mask);
    var h2 := CmovLimb(f.t2, g.t2, mask);
    var h3 := CmovLimb(f.t3, g.t3, mask);
    var h4 := CmovLimb(f.t4, g.t4, mask);
    var h5 := CmovLimb(f.t5, g.t5, mask);
    var h6 := CmovLimb(f.t6, g.t6, mask);
    var h7 := CmovLimb(f.t7, g.t7, mask);
    var h8 := CmovLimb(f.t8, g.t8, mask);
    var h9 := CmovLimb(f.t9, g.t9, mask);
    h := Fe(h0, h1, h2, h3, h4, h5, h6, h7, h8, h9);
  }

  method Cmov(t: Precomp, u: Precomp, b: nat) returns (r: Precomp)
    requires b <= 1
    ensures r == if b == 1 then u else t
  {
    var yplusx := FeCmov(t.yplusx, u.yplusx, b);
    var yminusx := FeCmov(t.yminusx, u.yminusx, b);
    var xy2d := FeCmov(t.xy2d, u.xy2d, b);
    r := Precomp(yplusx, yminusx, xy2d);
  }

  const TWO64: int := 0x1_0000_0000_0000_0000

  /** 1 if b == c, else 0: the sign bit of (b ^ c) - 1 in 64 bits. */
  method Equal(b: int, c: int) returns (r: nat)
    requires -128 <= b < 128 && -128 <= c < 128
    ensures r == if b == c then 1 else 0
  {
    hide BitXor;
    var ub, uc := b % 256, c % 256;
    var x := BitXor(ub, uc);
    XorEqual(ub, uc);
    Powers();
    XorBelow(ub, uc, 8);
    var y := (x - 1) % TWO64;
    r := y / 0x8000_0000_0000_0000 % 256;
  }

  /** 1 if b < 0, else 0: the sign bit of b in 64 bits. */
  method Negative(b: i8) returns (r: nat)
    ensures r == if b < 0 then 1 else 0
  {
    var x := b as int % TWO64;
    r := x / 0x8000_0000_0000_0000 % 256;
  }

  /** k n, by repeated addition. */
  function Times(k: int, n: int): int
    decreases if k < 0 then -k else k
  {
    if k == 0 then 0 else if k > 0 then n + Times(k - 1, n) else Times(k + 1, n) - n
  }

  lemma {:induction false} TimesIs(k: int, n: int)
    ensures Times(k, n) == k * n
    decreases if k < 0 then -k else k
  {
    if k > 0 { TimesIs(k - 1, n); } else if k < 0 { TimesIs(k + 1, n); }
  }

  /** table[j] stands for (j + 1) n times the base point. */
  ghost predicate Multiples(table: seq<Precomp>, q: (int, int) -> Point, n: int) {
    |table| == 8 && forall j :: 0 <= j < 8 ==> RepPrecomp(table[j], q(0, Times(j + 1, n)))
  }

  /** The entry for digit b of a table: b n times the base point. */
  method SelectEntry(table: seq<Precomp>, b: i8, ghost q: (int, int) -> Point, ghost n: int) returns (t: Precomp)
    requires Group(q) && Multiples(table, q, n) && -8 <= b <= 8
    ensures RepPrecomp(t, q(0, Times(b as int, n)))
  {
    hide RepPrecomp, Group, Multiples, Times;
    var bnegative := Negative(b);
    var babs := Magnitude(b, bnegative);
    t := SelectAbs(table, babs, q, n);
    var minust := Minus(t, q(0, Times(babs, n)));
    t := Cmov(t, minust, bnegative);
    NegatedIndex(q, babs, n);
  }

  /** b - (((-bnegative) & b) << 1) */
  method Magnitude(b: i8, bnegative: nat) returns (babs: int)
    requires -8 <= b <= 8 && bnegative == if b < 0 then 1 else 0
    ensures babs == if b < 0 then -(b as int) else b as int
  {
    hide BitAnd, Pow2;
    var m := BitAnd(Word((-(bnegative as int)) as i32), Word(b as i32));
    AndZero(Word(b as i32));
    AndMask(32, Word(b as i32));
    Pow2of32();
    ModSmall(Word(b as i32));
    babs := (b as int - 2 * Signed(m) as int) % 256;
  }

  lemma AndZero(x: nat)
    ensures BitAnd(0, x) == 0
  {}

  lemma NegatedIndex(q: (int, int) -> Point, k: int, n: int)
    requires Group(q)
    ensures Neg(q(0, Times(k, n))) == q(0, Times(-k, n))
  {
    TimesIs(k, n);
    TimesIs(-k, n);
    assert Negates(q, 0, k * n);
    assert -(k * n) == -k * n;
  }

  method Minus(t: Precomp, ghost a: Point) returns (r: Precomp)
    requires RepPrecomp(t, a)
    ensures RepPrecomp(r, Neg(a))
  {
    hide Value, Cached;
    var xy2d := FeNeg(t.xy2d);
    r := Precomp(t.yminusx, t.yplusx, xy2d);
    NegCached(Value(t.yplusx), Value(t.yminusx), 1, Value(t.xy2d), a);
  }

  /** The chain of conditional moves over the eight entries. */
  method SelectAbs(table: seq<Precomp>, babs: int, ghost q: (int, int) -> Point, ghost n: int) returns (t: Precomp)
    requires Group(q) && Multiples(table, q, n) && 0 <= babs <= 8
    ensures RepPrecomp(t, q(0, Times(babs, n)))
  {
    hide RepPrecomp, Group, Times;
    TimesIs(0, n);
    t := Precomp(FeOne(), FeOne(), FeZero());
    ghost var start := t;
    var e1 := Equal(babs, 1);
    t := Cmov(t, table[0], e1);
    var e2 := Equal(babs, 2);
    t := Cmov(t, table[1], e2);
    var e3 := Equal(babs, 3);
    t := Cmov(t, table[2], e3);
    var e4 := Equal(babs, 4);
    t := Cmov(t, table[3], e4);
    var e5 := Equal(babs, 5);
    t := Cmov(t, table[4], e5);
    var e6 := Equal(babs, 6);
    t := Cmov(t, table[5], e6);
    var e7 := Equal(babs, 7);
    t := Cmov(t, table[6], e7);
    var e8 := Equal(babs, 8);
    t := Cmov(t, table[7], e8);
    if babs == 0 {
      PrecompZero(q);
    } else {
      assert t == table[babs - 1];
    }
  }

  lemma PrecompZero(q: (int, int) -> Point)
    requires Group(q)
    ensures RepPrecomp(Precomp(FeOne(), FeOne(), FeZero()), q(0, 0))
  {
    hide Value, Cong, Unit, Tight;
    var a := q(0, 0);
    SmallValues();
    UnitOne();
    CongAdd(a.y, 1, a.x, 0);
    CongSym(a.y + a.x, 1);
    CongSym(a.y - a.x, 1);
    CongMul(a.x, 0, a.y, 1);
    Scale(2 * D, a.x * a.y, 0);
    CongSym((2 * D) * (a.x * a.y), 0);
  }
}
