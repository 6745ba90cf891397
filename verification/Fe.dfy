/** Field elements modulo 2^255 - 19 in radix 2^25.5 (src/crypto/ed25519/fe.c). */
module Fe {
  import opened Words
  import opened Congruence

  /** The C type fe: ten signed 32-bit limbs. */
  datatype Fe = Fe(t0: i32, t1: i32, t2: i32, t3: i32, t4: i32,
                   t5: i32, t6: i32, t7: i32, t8: i32, t9: i32)

  /** Ten limbs as unbounded integers. */
  datatype Vec = Vec(v0: int, v1: int, v2: int, v3: int, v4: int,
                     v5: int, v6: int, v7: int, v8: int, v9: int)
  {
    function Limb(k: nat): int
      requires k < 10
    {
      if k == 0 then v0 else if k == 1 then v1 else if k == 2 then v2 else if k == 3 then v3 else if k == 4 then v4
      else if k == 5 then v5 else if k == 6 then v6 else if k == 7 then v7 else if k == 8 then v8 else v9
    }

    /** Limbs k and up: even limbs are 26 bits apart from the next one, odd limbs 25. */
    function From(k: nat): int
      requires k <= 10
      decreases 10 - k
    {
      if k == 10 then 0 else Limb(k) + (if k % 2 == 0 then 0x4000000 else 0x2000000) * From(k + 1)
    }

    /** The integer a limb vector stands for:
        v0 + 2^26 v1 + 2^51 v2 + 2^77 v3 + 2^102 v4 + ... + 2^230 v9. */
    function Value(): int { From(0) }

    function Plus(w: Vec): Vec {
      Vec(v0 + w.v0, v1 + w.v1, v2 + w.v2, v3 + w.v3, v4 + w.v4,
          v5 + w.v5, v6 + w.v6, v7 + w.v7, v8 + w.v8, v9 + w.v9)
    }

    function Times(c: int): Vec {
      Vec(c * v0, c * v1, c * v2, c * v3, c * v4, c * v5, c * v6, c * v7, c * v8, c * v9)
    }

    /** Multiplication by 2^26 modulo P, limb by limb. */
    function Shift26(): Vec {
      Vec(38 * v9, v0, 2 * v1, v2, 2 * v3, v4, 2 * v5, v6, 2 * v7, v8)
    }

    /** Multiplication by 2^51 modulo P, limb by limb. */
    function Shift51(): Vec {
      Vec(19 * v8, 19 * v9, v0, v1, v2, v3, v4, v5, v6, v7)
    }
  }

  function Limbs(f: Fe): Vec {
    Vec(f.t0 as int, f.t1 as int, f.t2 as int, f.t3 as int, f.t4 as int,
        f.t5 as int, f.t6 as int, f.t7 as int, f.t8 as int, f.t9 as int)
  }

  function Value(f: Fe): int {
    Limbs(f).Value()
  }

  lemma Unfold(v: Vec)
    ensures v.Value() ==
      v.v0 + 0x4000000 * (v.v1 + 0x2000000 * (v.v2 + 0x4000000 * (v.v3 + 0x2000000 * (v.v4 +
      0x4000000 * (v.v5 + 0x2000000 * (v.v6 + 0x4000000 * (v.v7 + 0x2000000 * (v.v8 + 0x4000000 * v.v9))))))))
  {
    assert v.From(8) == v.v8 + 0x4000000 * v.v9;
    assert v.From(6) == v.v6 + 0x4000000 * (v.v7 + 0x2000000 * v.From(8));
    assert v.From(4) == v.v4 + 0x4000000 * (v.v5 + 0x2000000 * v.From(6));
    assert v.From(2) == v.v2 + 0x4000000 * (v.v3 + 0x2000000 * v.From(4));
    assert v.From(0) == v.v0 + 0x4000000 * (v.v1 + 0x2000000 * v.From(2));
  }

  lemma PlusValue(v: Vec, w: Vec)
    ensures v.Plus(w).Value() == v.Value() + w.Value()
  {
    hide Vec.Value;
    Unfold(v); Unfold(w); Unfold(v.Plus(w));
  }

  lemma TimesValue(v: Vec, c: int)
    ensures v.Times(c).Value() == c * v.Value()
  {
    hide Vec.Value;
    Unfold(v); Unfold(v.Times(c));
  }

  lemma Shift26Value(v: Vec)
    ensures Cong(v.Shift26().Value(), 0x4000000 * v.Value())
  {
    hide Vec.Value;
    Unfold(v); Unfold(v.Shift26());
    CongBy(v.Shift26().Value(), 0x4000000 * v.Value(), -2 * v.v9);
  }

  lemma Shift51Value(v: Vec)
    ensures Cong(v.Shift51().Value(), 0x8000000000000 * v.Value())
  {
    hide Vec.Value;
    Unfold(v); Unfold(v.Shift51());
    CongBy(v.Shift51().Value(), 0x8000000000000 * v.Value(), -(v.v8 + 0x4000000 * v.v9));
  }

  /** One Horner step of the product with g, two limbs of the other factor at a time. */
  function Step(g: Vec, a: int, b: int, t: Vec): Vec {
    g.Times(a).Plus(g.Shift26().Times(b)).Plus(t.Shift51())
  }

  /** The schoolbook product of two limb vectors, folded modulo P. */
  function Schoolbook(f: Vec, g: Vec): Vec {
    Step(g, f.v0, f.v1, Step(g, f.v2, f.v3, Step(g, f.v4, f.v5, Step(g, f.v6, f.v7,
      Step(g, f.v8, f.v9, Vec(0, 0, 0, 0, 0, 0, 0, 0, 0, 0))))))
  }

  lemma StepValue(g: Vec, a: int, b: int, t: Vec, w: int)
    requires Cong(t.Value(), w * g.Value())
    ensures Cong(Step(g, a, b, t).Value(), (a + 0x4000000 * b + 0x8000000000000 * w) * g.Value())
  {
    var u, v, x := g.Times(a), g.Shift26(), t.Shift51();
    assert Step(g, a, b, t) == u.Plus(v.Times(b)).Plus(x);
    hide *;
    TimesValue(g, a);
    TimesValue(v, b);
    PlusValue(u, v.Times(b));
    PlusValue(u.Plus(v.Times(b)), x);
    Shift26Value(g);
    Shift51Value(t);
    StepCong(a, b, g.Value(), v.Value(), t.Value(), x.Value(), w, v.Times(b).Value(), Step(g, a, b, t).Value());
  }

  lemma StepCong(a: int, b: int, g: int, v: int, t: int, x: int, w: int, y: int, sum: int)
    requires Cong(v, 0x4000000 * g) && Cong(x, 0x8000000000000 * t) && Cong(t, w * g)
    requires y == b * v && sum == a * g + y + x
    ensures Cong(sum, (a + 0x4000000 * b + 0x8000000000000 * w) * g)
  {
    var k := Quotient(v, 0x4000000 * g);
    var m := Quotient(x, 0x8000000000000 * t);
    var n := Quotient(t, w * g);
    assert y == b * (0x4000000 * g) + (b * k) * P;
    CongBy(sum, (a + 0x4000000 * b + 0x8000000000000 * w) * g, b * k + m + 0x8000000000000 * n);
  }

  lemma ValueByPairs(f: Vec)
    ensures f.Value() == f.v0 + 0x4000000 * f.v1 + 0x8000000000000 * (
                         f.v2 + 0x4000000 * f.v3 + 0x8000000000000 * (
                         f.v4 + 0x4000000 * f.v5 + 0x8000000000000 * (
                         f.v6 + 0x4000000 * f.v7 + 0x8000000000000 * (
                         f.v8 + 0x4000000 * f.v9))))
  {
    Unfold(f);
  }

  lemma SchoolbookValue(f: Vec, g: Vec)
    ensures Cong(Schoolbook(f, g).Value(), f.Value() * g.Value())
  {
    hide Step, Vec.Value, Vec.Plus, Vec.Times, Vec.Shift26, Vec.Shift51;
    var z := Vec(0, 0, 0, 0, 0, 0, 0, 0, 0, 0);
    var s4 := Step(g, f.v8, f.v9, z);
    var s3 := Step(g, f.v6, f.v7, s4);
    var s2 := Step(g, f.v4, f.v5, s3);
    var s1 := Step(g, f.v2, f.v3, s2);
    var w4 := f.v8 + 0x4000000 * f.v9 + 0x8000000000000 * 0;
    var w3 := f.v6 + 0x4000000 * f.v7 + 0x8000000000000 * w4;
    var w2 := f.v4 + 0x4000000 * f.v5 + 0x8000000000000 * w3;
    var w1 := f.v2 + 0x4000000 * f.v3 + 0x8000000000000 * w2;
    ValueByPairs(z);
    ValueByPairs(f);
    CongRefl(0);
    StepValue(g, f.v8, f.v9, z, 0);
    StepValue(g, f.v6, f.v7, s4, w4);
    StepValue(g, f.v4, f.v5, s3, w3);
    StepValue(g, f.v2, f.v3, s2, w2);
    StepValue(g, f.v0, f.v1, s1, w1);
  }

  /** Even limbs bounded by even, odd limbs by odd. */
  predicate Bounded(f: Fe, even: int, odd: int) {
    && -even <= f.t0 as int <= even && -odd <= f.t1 as int <= odd
    && -even <= f.t2 as int <= even && -odd <= f.t3 as int <= odd
    && -even <= f.t4 as int <= even && -odd <= f.t5 as int <= odd
    && -even <= f.t6 as int <= even && -odd <= f.t7 as int <= odd
    && -even <= f.t8 as int <= even && -odd <= f.t9 as int <= odd
  }

  /** 1.65 * 2^26 and 1.65 * 2^25 (rounded down): what fe_mul, fe_sq and fe_sq2 accept. */
  predicate Wide(f: Fe) { Bounded(f, 110729625, 55364812) }

  /** 1.01 * 2^25 and 1.01 * 2^24 (rounded down): what they return. */
  predicate Tight(f: Fe) { Bounded(f, 33889976, 16944988) }

  /** A sum of ten 64-bit products, each factor in the range that Wide inputs give it. */
  function Dot(a0: i32, b0: i32, a1: i32, b1: i32, a2: i32, b2: i32, a3: i32, b3: i32, a4: i32, b4: i32,
               a5: i32, b5: i32, a6: i32, b6: i32, a7: i32, b7: i32, a8: i32, b8: i32, a9: i32, b9: i32): (r: i64)
    requires Factors(a0, b0) && Factors(a1, b1) && Factors(a2, b2) && Factors(a3, b3) && Factors(a4, b4)
    requires Factors(a5, b5) && Factors(a6, b6) && Factors(a7, b7) && Factors(a8, b8) && Factors(a9, b9)
    ensures r as int ==
      a0 as int * b0 as int + a1 as int * b1 as int + a2 as int * b2 as int + a3 as int * b3 as int +
      a4 as int * b4 as int + a5 as int * b5 as int + a6 as int * b6 as int + a7 as int * b7 as int +
      a8 as int * b8 as int + a9 as int * b9 as int
    ensures -2329600000000000000 <= r <= 2329600000000000000
  {
    Product(a0, b0) + Product(a1, b1) + Product(a2, b2) + Product(a3, b3) + Product(a4, b4) +
    Product(a5, b5) + Product(a6, b6) + Product(a7, b7) + Product(a8, b8) + Product(a9, b9)
  }

  predicate Factors(a: i32, b: i32) {
    -110729625 <= a <= 110729625 && -2103862875 <= b <= 2103862875
  }

  function Product(a: i32, b: i32): (r: i64)
    requires Factors(a, b)
    ensures r as int == a as int * b as int
    ensures -232960000000000000 <= r <= 232960000000000000
  {
    ProductBound(a as int, b as int);
    a as i64 * b as i64
  }

  lemma ProductBound(a: int, b: int)
    requires -110729625 <= a <= 110729625 && -2103862875 <= b <= 2103862875
    ensures -232960000000000000 <= a * b <= 232960000000000000
  {
    NonNegative(110729625 - a, 2103862875 + b);
    NonNegative(110729625 + a, 2103862875 - b);
    NonNegative(110729625 - a, 2103862875 - b);
    NonNegative(110729625 + a, 2103862875 + b);
  }

  lemma NonNegative(x: int, y: int)
    requires 0 <= x && 0 <= y
    ensures 0 <= x * y
  {}

  /** The ten column sums of fe_mul, as integers. */
  function MulColumns(f: Vec, g: Vec): Vec {
    Vec(f.v0 * g.v0 + (2 * f.v1) * (19 * g.v9) + f.v2 * (19 * g.v8) + (2 * f.v3) * (19 * g.v7) + f.v4 * (19 * g.v6) +
        (2 * f.v5) * (19 * g.v5) + f.v6 * (19 * g.v4) + (2 * f.v7) * (19 * g.v3) + f.v8 * (19 * g.v2)
        + (2 * f.v9) * (19 * g.v1),
        f.v0 * g.v1 + f.v1 * g.v0 + f.v2 * (19 * g.v9) + f.v3 * (19 * g.v8) + f.v4 * (19 * g.v7) +
        f.v5 * (19 * g.v6) + f.v6 * (19 * g.v5) + f.v7 * (19 * g.v4) + f.v8 * (19 * g.v3) + f.v9 * (19 * g.v2),
        f.v0 * g.v2 + (2 * f.v1) * g.v1 + f.v2 * g.v0 + (2 * f.v3) * (19 * g.v9) + f.v4 * (19 * g.v8) +
        (2 * f.v5) * (19 * g.v7) + f.v6 * (19 * g.v6) + (2 * f.v7) * (19 * g.v5) + f.v8 * (19 * g.v4)
        + (2 * f.v9) * (19 * g.v3),
        f.v0 * g.v3 + f.v1 * g.v2 + f.v2 * g.v1 + f.v3 * g.v0 + f.v4 * (19 * g.v9) +
        f.v5 * (19 * g.v8) + f.v6 * (19 * g.v7) + f.v7 * (19 * g.v6) + f.v8 * (19 * g.v5) + f.v9 * (19 * g.v4),
        f.v0 * g.v4 + (2 * f.v1) * g.v3 + f.v2 * g.v2 + (2 * f.v3) * g.v1 + f.v4 * g.v0 +
        (2 * f.v5) * (19 * g.v9) + f.v6 * (19 * g.v8) + (2 * f.v7) * (19 * g.v7) + f.v8 * (19 * g.v6)
        + (2 * f.v9) * (19 * g.v5),
        f.v0 * g.v5 + f.v1 * g.v4 + f.v2 * g.v3 + f.v3 * g.v2 + f.v4 * g.v1 +
        f.v5 * g.v0 + f.v6 * (19 * g.v9) + f.v7 * (19 * g.v8) + f.v8 * (19 * g.v7) + f.v9 * (19 * g.v6),
        f.v0 * g.v6 + (2 * f.v1) * g.v5 + f.v2 * g.v4 + (2 * f.v3) * g.v3 + f.v4 * g.v2 +
        (2 * f.v5) * g.v1 + f.v6 * g.v0 + (2 * f.v7) * (19 * g.v9) + f.v8 * (19 * g.v8) + (2 * f.v9) * (19 * g.v7),
        f.v0 * g.v7 + f.v1 * g.v6 + f.v2 * g.v5 + f.v3 * g.v4 + f.v4 * g.v3 +
        f.v5 * g.v2 + f.v6 * g.v1 + f.v7 * g.v0 + f.v8 * (19 * g.v9) + f.v9 * (19 * g.v8),
        f.v0 * g.v8 + (2 * f.v1) * g.v7 + f.v2 * g.v6 + (2 * f.v3) * g.v5 + f.v4 * g.v4 +
        (2 * f.v5) * g.v3 + f.v6 * g.v2 + (2 * f.v7) * g.v1 + f.v8 * g.v0 + (2 * f.v9) * (19 * g.v9),
        f.v0 * g.v9 + f.v1 * g.v8 + f.v2 * g.v7 + f.v3 * g.v6 + f.v4 * g.v5 +
        f.v5 * g.v4 + f.v6 * g.v3 + f.v7 * g.v2 + f.v8 * g.v1 + f.v9 * g.v0)
  }

  lemma MulColumnsSchoolbook(f: Vec, g: Vec)
    ensures MulColumns(f, g) == Schoolbook(f, g)
  {}

  /** Ten 64-bit columns before the carries. */
  datatype Columns = Columns(h0: i64, h1: i64, h2: i64, h3: i64, h4: i64,
                             h5: i64, h6: i64, h7: i64, h8: i64, h9: i64)
  {
    function Ints(): Vec {
      Vec(h0 as int, h1 as int, h2 as int, h3 as int, h4 as int,
          h5 as int, h6 as int, h7 as int, h8 as int, h9 as int)
    }

    predicate InHalfRange() {
      && -HALF <= h0 <= HALF && -HALF <= h1 <= HALF && -HALF <= h2 <= HALF && -HALF <= h3 <= HALF && -HALF <= h4 <= HALF
      && -HALF <= h5 <= HALF && -HALF <= h6 <= HALF && -HALF <= h7 <= HALF && -HALF <= h8 <= HALF && -HALF <= h9 <= HALF
    }

    /** Every column that fe_mul, fe_sq or fe_sq2 forms from Wide inputs is in this range. */
    predicate InRange() {
      && -COLUMN <= h0 <= COLUMN && -COLUMN <= h1 <= COLUMN && -COLUMN <= h2 <= COLUMN
      && -COLUMN <= h3 <= COLUMN && -COLUMN <= h4 <= COLUMN && -COLUMN <= h5 <= COLUMN
      && -COLUMN <= h6 <= COLUMN && -COLUMN <= h7 <= COLUMN && -COLUMN <= h8 <= COLUMN
      && -COLUMN <= h9 <= COLUMN
    }
  }

  const HALF: i64 := 2_800_000_000_000_000_000
  const COLUMN: i64 := 5_600_000_000_000_000_000

  function Over26(h: int): int { (h + 0x2000000) / 0x4000000 }

  function Over25(h: int): int { (h + 0x1000000) / 0x2000000 }

  /** carry = (h + (1 << 25)) >> 26; h -= carry << 26. */
  method Round26(h: i64) returns (carry: i64, low: i64)
    requires -0x7000_0000_0000_0000 <= h <= 0x7000_0000_0000_0000
    ensures h as int == low as int + 0x4000000 * carry as int
    ensures -0x2000000 <= low < 0x2000000
    ensures carry as int == Over26(h as int)
  {
    carry := (h + 0x2000000) / 0x4000000;
    low := h - carry * 0x4000000;
  }

  /** carry = (h + (1 << 24)) >> 25; h -= carry << 25. */
  method Round25(h: i64) returns (carry: i64, low: i64)
    requires -0x7000_0000_0000_0000 <= h <= 0x7000_0000_0000_0000
    ensures h as int == low as int + 0x2000000 * carry as int
    ensures -0x1000000 <= low < 0x1000000
    ensures carry as int == Over25(h as int)
  {
    carry := (h + 0x1000000) / 0x2000000;
    low := h - carry * 0x2000000;
  }

  /** The columns after the first eight carries. */
  function CarriedFirst(c: Vec): Vec {
    var carry0 := Over26(c.v0);
    var carry4 := Over26(c.v4);
    var carry1 := Over25(c.v1 + carry0);
    var carry5 := Over25(c.v5 + carry4);
    var carry2 := Over26(c.v2 + carry1);
    var carry6 := Over26(c.v6 + carry5);
    var carry3 := Over25(c.v3 + carry2);
    var carry7 := Over25(c.v7 + carry6);
    Vec(c.v0 - 0x4000000 * carry0,
        c.v1 + carry0 - 0x2000000 * carry1,
        c.v2 + carry1 - 0x4000000 * carry2,
        c.v3 + carry2 - 0x2000000 * carry3,
        c.v4 - 0x4000000 * carry4 + carry3,
        c.v5 + carry4 - 0x2000000 * carry5,
        c.v6 + carry5 - 0x4000000 * carry6,
        c.v7 + carry6 - 0x2000000 * carry7,
        c.v8 + carry7,
        c.v9)
  }

  /** The limbs after the last four carries. */
  function CarriedLast(d: Vec): Vec {
    var carry4 := Over26(d.v4);
    var carry8 := Over26(d.v8);
    var carry9 := Over25(d.v9 + carry8);
    var h0 := d.v0 + carry9 * 19;
    var carry0 := Over26(h0);
    Vec(h0 - 0x4000000 * carry0, d.v1 + carry0, d.v2, d.v3, d.v4 - 0x4000000 * carry4,
        d.v5 + carry4, d.v6, d.v7, d.v8 - 0x4000000 * carry8, d.v9 + carry8 - 0x2000000 * carry9)
  }

  lemma CarriedFirstValue(c: Vec)
    ensures CarriedFirst(c).Value() == c.Value()
  {
    hide Over26, Over25, Vec.Value;
    Unfold(c); Unfold(CarriedFirst(c));
  }

  lemma CarriedLastValue(d: Vec)
    ensures Cong(CarriedLast(d).Value(), d.Value())
  {
    hide Over26, Over25, Vec.Value;
    Unfold(d); Unfold(CarriedLast(d));
    CongBy(CarriedLast(d).Value(), d.Value(), -Over25(d.v9 + Over26(d.v8)));
  }

  method CarryFirst(c: Columns) returns (d: Columns)
    requires c.InRange()
    ensures d.Ints() == CarriedFirst(c.Ints())
    ensures -0x2000000 <= d.h0 <= 0x2000000 && -0x1000000 <= d.h1 <= 0x1000000
    ensures -0x2000000 <= d.h2 <= 0x2000000 && -0x1000000 <= d.h3 <= 0x1000000
    ensures -0x4000000000 <= d.h4 <= 0x4000000000 && -0x1000000 <= d.h5 <= 0x1000000
    ensures -0x2000000 <= d.h6 <= 0x2000000 && -0x1000000 <= d.h7 <= 0x1000000
    ensures -0x5000_0000_0000_0000 <= d.h8 <= 0x5000_0000_0000_0000 && -COLUMN <= d.h9 <= COLUMN
  {
    hide Over26, Over25;
    var h0, h1, h2, h3, h4, h5, h6, h7, h8, h9 := c.h0, c.h1, c.h2, c.h3, c.h4, c.h5, c.h6, c.h7, c.h8, c.h9;
    var carry0, carry1, carry2, carry3, carry4, carry5, carry6, carry7;
    carry0, h0 := Round26(h0);
    h1 := h1 + carry0;
    carry4, h4 := Round26(h4);
    h5 := h5 + carry4;
    carry1, h1 := Round25(h1);
    h2 := h2 + carry1;
    carry5, h5 := Round25(h5);
    h6 := h6 + carry5;
    carry2, h2 := Round26(h2);
    h3 := h3 + carry2;
    carry6, h6 := Round26(h6);
    h7 := h7 + carry6;
    carry3, h3 := Round25(h3);
    h4 := h4 + carry3;
    carry7, h7 := Round25(h7);
    h8 := h8 + carry7;
    d := Columns(h0, h1, h2, h3, h4, h5, h6, h7, h8, h9);
  }

  /** The twelve carries shared by fe_mul, fe_sq and fe_sq2. */
  method CarryColumns(c: Columns) returns (h: Fe)
    requires c.InRange()
    ensures Limbs(h) == CarriedLast(CarriedFirst(c.Ints()))
    ensures Tight(h)
    ensures Cong(Value(h), c.Ints().Value())
  {
    hide Vec.Value, Over26, Over25, CarriedFirst;
    var d := CarryFirst(c);
    var h0, h1, h4, h5, h8, h9 := d.h0, d.h1, d.h4, d.h5, d.h8, d.h9;
    var carry0, carry4, carry8, carry9;
    carry4, h4 := Round26(h4);
    h5 := h5 + carry4;
    carry8, h8 := Round26(h8);
    h9 := h9 + carry8;
    carry9, h9 := Round25(h9);
    h0 := h0 + carry9 * 19;
    carry0, h0 := Round26(h0);
    h1 := h1 + carry0;
    h := Fe(h0 as i32, h1 as i32, d.h2 as i32, d.h3 as i32, h4 as i32,
            h5 as i32, d.h6 as i32, d.h7 as i32, h8 as i32, h9 as i32);
    CarriedFirstValue(c.Ints());
    CarriedLastValue(d.Ints());
  }

  /** The limbs of a product: its columns, carried. */
  ghost function ProductLimbs(f: Vec, g: Vec): Vec { CarriedLast(CarriedFirst(MulColumns(f, g))) }

  /** h = f * g */
  method FeMul(f: Fe, g: Fe) returns (h: Fe)
    requires Wide(f) && Wide(g)
    ensures Tight(h)
    ensures Cong(Value(h), Value(f) * Value(g))
    ensures Limbs(h) == ProductLimbs(Limbs(f), Limbs(g))
  {
    hide Schoolbook, Vec.Value, CarriedFirst, CarriedLast;
    var g1_19, g2_19, g3_19 := 19 * g.t1, 19 * g.t2, 19 * g.t3;
    var g4_19, g5_19, g6_19 := 19 * g.t4, 19 * g.t5, 19 * g.t6;
    var g7_19, g8_19, g9_19 := 19 * g.t7, 19 * g.t8, 19 * g.t9;
    var f1_2, f3_2, f5_2, f7_2, f9_2 := 2 * f.t1, 2 * f.t3, 2 * f.t5, 2 * f.t7, 2 * f.t9;
    var h0 := Dot(f.t0, g.t0, f1_2, g9_19, f.t2, g8_19, f3_2, g7_19, f.t4, g6_19,
                  f5_2, g5_19, f.t6, g4_19, f7_2, g3_19, f.t8, g2_19, f9_2, g1_19);
    var h1 := Dot(f.t0, g.t1, f.t1, g.t0, f.t2, g9_19, f.t3, g8_19, f.t4, g7_19,
                  f.t5, g6_19, f.t6, g5_19, f.t7, g4_19, f.t8, g3_19, f.t9, g2_19);
    var h2 := Dot(f.t0, g.t2, f1_2, g.t1, f.t2, g.t0, f3_2, g9_19, f.t4, g8_19,
                  f5_2, g7_19, f.t6, g6_19, f7_2, g5_19, f.t8, g4_19, f9_2, g3_19);
    var h3 := Dot(f.t0, g.t3, f.t1, g.t2, f.t2, g.t1, f.t3, g.t0, f.t4, g9_19,
                  f.t5, g8_19, f.t6, g7_19, f.t7, g6_19, f.t8, g5_19, f.t9, g4_19);
    var h4 := Dot(f.t0, g.t4, f1_2, g.t3, f.t2, g.t2, f3_2, g.t1, f.t4, g.t0,
                  f5_2, g9_19, f.t6, g8_19, f7_2, g7_19, f.t8, g6_19, f9_2, g5_19);
    var h5 := Dot(f.t0, g.t5, f.t1, g.t4, f.t2, g.t3, f.t3, g.t2, f.t4, g.t1,
                  f.t5, g.t0, f.t6, g9_19, f.t7, g8_19, f.t8, g7_19, f.t9, g6_19);
    var h6 := Dot(f.t0, g.t6, f1_2, g.t5, f.t2, g.t4, f3_2, g.t3, f.t4, g.t2,
                  f5_2, g.t1, f.t6, g.t0, f7_2, g9_19, f.t8, g8_19, f9_2, g7_19);
    var h7 := Dot(f.t0, g.t7, f.t1, g.t6, f.t2, g.t5, f.t3, g.t4, f.t4, g.t3,
                  f.t5, g.t2, f.t6, g.t1, f.t7, g.t0, f.t8, g9_19, f.t9, g8_19);
    var h8 := Dot(f.t0, g.t8, f1_2, g.t7, f.t2, g.t6, f3_2, g.t5, f.t4, g.t4,
                  f5_2, g.t3, f.t6, g.t2, f7_2, g.t1, f.t8, g.t0, f9_2, g9_19);
    var h9 := Dot(f.t0, g.t9, f.t1, g.t8, f.t2, g.t7, f.t3, g.t6, f.t4, g.t5,
                  f.t5, g.t4, f.t6, g.t3, f.t7, g.t2, f.t8, g.t1, f.t9, g.t0);
    h := CarryColumns(Columns(h0, h1, h2, h3, h4, h5, h6, h7, h8, h9));
    ghost var c := Columns(h0, h1, h2, h3, h4, h5, h6, h7, h8, h9).Ints();
    assert c == MulColumns(Limbs(f), Limbs(g));
    MulColumnsSchoolbook(Limbs(f), Limbs(g));
    SchoolbookValue(Limbs(f), Limbs(g));
    CongTrans(Value(h), c.Value(), Value(f) * Value(g));
  }

  predicate SquareFactors(a: i32, b: i32) {
    -221459250 <= a <= 221459250 && -2103862875 <= b <= 2103862875
  }

  function SquareProduct(a: i32, b: i32): (r: i64)
    requires SquareFactors(a, b)
    ensures r as int == a as int * b as int
    ensures -465920000000000000 <= r <= 465920000000000000
  {
    SquareBound(a as int, b as int);
    a as i64 * b as i64
  }

  lemma SquareBound(a: int, b: int)
    requires -221459250 <= a <= 221459250 && -2103862875 <= b <= 2103862875
    ensures -465920000000000000 <= a * b <= 465920000000000000
  {
    NonNegative(221459250 - a, 2103862875 + b);
    NonNegative(221459250 + a, 2103862875 - b);
    NonNegative(221459250 - a, 2103862875 - b);
    NonNegative(221459250 + a, 2103862875 + b);
  }

  /** A sum of six products of a square. */
  function Dot6(a0: i32, b0: i32, a1: i32, b1: i32, a2: i32, b2: i32, a3: i32, b3: i32, a4: i32, b4: i32,
                a5: i32, b5: i32): (r: i64)
    requires SquareFactors(a0, b0) && SquareFactors(a1, b1) && SquareFactors(a2, b2) && SquareFactors(a3, b3)
             && SquareFactors(a4, b4) && SquareFactors(a5, b5)
    ensures r as int == a0 as int * b0 as int + a1 as int * b1 as int + a2 as int * b2 as int + a3 as int * b3 as int
            + a4 as int * b4 as int + a5 as int * b5 as int
    ensures -2800000000000000000 <= r <= 2800000000000000000
  {
    SquareProduct(a0, b0) + SquareProduct(a1, b1) + SquareProduct(a2, b2) + SquareProduct(a3, b3)
    + SquareProduct(a4, b4) + SquareProduct(a5, b5)
  }

  /** A sum of five products of a square. */
  function Dot5(a0: i32, b0: i32, a1: i32, b1: i32, a2: i32, b2: i32, a3: i32, b3: i32, a4: i32, b4: i32): (r: i64)
    requires SquareFactors(a0, b0) && SquareFactors(a1, b1) && SquareFactors(a2, b2) && SquareFactors(a3, b3)
             && SquareFactors(a4, b4)
    ensures r as int == a0 as int * b0 as int + a1 as int * b1 as int + a2 as int * b2 as int + a3 as int * b3 as int
            + a4 as int * b4 as int
    ensures -2800000000000000000 <= r <= 2800000000000000000
  {
    SquareProduct(a0, b0) + SquareProduct(a1, b1) + SquareProduct(a2, b2) + SquareProduct(a3, b3)
    + SquareProduct(a4, b4)
  }

  /** The ten column sums of fe_sq, as integers. */
  function SqColumns(f: Vec): Vec {
    Vec(f.v0 * f.v0 + (2 * f.v1) * (38 * f.v9) + (2 * f.v2) * (19 * f.v8) + (2 * f.v3) * (38 * f.v7)
        + (2 * f.v4) * (19 * f.v6) + f.v5 * (38 * f.v5),
        (2 * f.v0) * f.v1 + f.v2 * (38 * f.v9) + (2 * f.v3) * (19 * f.v8) + f.v4 * (38 * f.v7)
        + (2 * f.v5) * (19 * f.v6),
        (2 * f.v0) * f.v2 + (2 * f.v1) * f.v1 + (2 * f.v3) * (38 * f.v9) + (2 * f.v4) * (19 * f.v8)
        + (2 * f.v5) * (38 * f.v7) + f.v6 * (19 * f.v6),
        (2 * f.v0) * f.v3 + (2 * f.v1) * f.v2 + f.v4 * (38 * f.v9) + (2 * f.v5) * (19 * f.v8) + f.v6 * (38 * f.v7),
        (2 * f.v0) * f.v4 + (2 * f.v1) * (2 * f.v3) + f.v2 * f.v2 + (2 * f.v5) * (38 * f.v9) + (2 * f.v6) * (19 * f.v8)
        + f.v7 * (38 * f.v7),
        (2 * f.v0) * f.v5 + (2 * f.v1) * f.v4 + (2 * f.v2) * f.v3 + f.v6 * (38 * f.v9) + (2 * f.v7) * (19 * f.v8),
        (2 * f.v0) * f.v6 + (2 * f.v1) * (2 * f.v5) + (2 * f.v2) * f.v4 + (2 * f.v3) * f.v3 + (2 * f.v7) * (38 * f.v9)
        + f.v8 * (19 * f.v8),
        (2 * f.v0) * f.v7 + (2 * f.v1) * f.v6 + (2 * f.v2) * f.v5 + (2 * f.v3) * f.v4 + f.v8 * (38 * f.v9),
        (2 * f.v0) * f.v8 + (2 * f.v1) * (2 * f.v7) + (2 * f.v2) * f.v6 + (2 * f.v3) * (2 * f.v5) + f.v4 * f.v4
        + f.v9 * (38 * f.v9),
        (2 * f.v0) * f.v9 + (2 * f.v1) * f.v8 + (2 * f.v2) * f.v7 + (2 * f.v3) * f.v6 + (2 * f.v4) * f.v5)
  }

  /** The shortened columns of fe_sq are those of fe_mul(f, f). */
  lemma SqColumnsAreMulColumns(f: Vec)
    ensures SqColumns(f) == MulColumns(f, f)
  {
    SquareIdentities(f.v0, f.v1, f.v2, f.v3, f.v4, f.v5, f.v6, f.v7, f.v8, f.v9);
  }

  lemma SquareIdentities(f0: int, f1: int, f2: int, f3: int, f4: int, f5: int, f6: int, f7: int, f8: int, f9: int)
    ensures f0 * f0 + (2 * f1) * (38 * f9) + (2 * f2) * (19 * f8) + (2 * f3) * (38 * f7) + (2 * f4) * (19 * f6)
            + f5 * (38 * f5) ==
              f0 * f0 + (2 * f1) * (19 * f9) + f2 * (19 * f8) + (2 * f3) * (19 * f7) + f4 * (19 * f6) +
              (2 * f5) * (19 * f5) + f6 * (19 * f4) + (2 * f7) * (19 * f3) + f8 * (19 * f2) + (2 * f9) * (19 * f1)
    ensures (2 * f0) * f1 + f2 * (38 * f9) + (2 * f3) * (19 * f8) + f4 * (38 * f7) + (2 * f5) * (19 * f6) ==
              f0 * f1 + f1 * f0 + f2 * (19 * f9) + f3 * (19 * f8) + f4 * (19 * f7) +
              f5 * (19 * f6) + f6 * (19 * f5) + f7 * (19 * f4) + f8 * (19 * f3) + f9 * (19 * f2)
    ensures (2 * f0) * f2 + (2 * f1) * f1 + (2 * f3) * (38 * f9) + (2 * f4) * (19 * f8) + (2 * f5) * (38 * f7)
            + f6 * (19 * f6) ==
              f0 * f2 + (2 * f1) * f1 + f2 * f0 + (2 * f3) * (19 * f9) + f4 * (19 * f8) +
              (2 * f5) * (19 * f7) + f6 * (19 * f6) + (2 * f7) * (19 * f5) + f8 * (19 * f4) + (2 * f9) * (19 * f3)
    ensures (2 * f0) * f3 + (2 * f1) * f2 + f4 * (38 * f9) + (2 * f5) * (19 * f8) + f6 * (38 * f7) ==
              f0 * f3 + f1 * f2 + f2 * f1 + f3 * f0 + f4 * (19 * f9) +
              f5 * (19 * f8) + f6 * (19 * f7) + f7 * (19 * f6) + f8 * (19 * f5) + f9 * (19 * f4)
    ensures (2 * f0) * f4 + (2 * f1) * (2 * f3) + f2 * f2 + (2 * f5) * (38 * f9) + (2 * f6) * (19 * f8)
            + f7 * (38 * f7) ==
              f0 * f4 + (2 * f1) * f3 + f2 * f2 + (2 * f3) * f1 + f4 * f0 +
              (2 * f5) * (19 * f9) + f6 * (19 * f8) + (2 * f7) * (19 * f7) + f8 * (19 * f6) + (2 * f9) * (19 * f5)
    ensures (2 * f0) * f5 + (2 * f1) * f4 + (2 * f2) * f3 + f6 * (38 * f9) + (2 * f7) * (19 * f8) ==
              f0 * f5 + f1 * f4 + f2 * f3 + f3 * f2 + f4 * f1 +
              f5 * f0 + f6 * (19 * f9) + f7 * (19 * f8) + f8 * (19 * f7) + f9 * (19 * f6)
    ensures (2 * f0) * f6 + (2 * f1) * (2 * f5) + (2 * f2) * f4 + (2 * f3) * f3 + (2 * f7) * (38 * f9)
            + f8 * (19 * f8) ==
              f0 * f6 + (2 * f1) * f5 + f2 * f4 + (2 * f3) * f3 + f4 * f2 +
              (2 * f5) * f1 + f6 * f0 + (2 * f7) * (19 * f9) + f8 * (19 * f8) + (2 * f9) * (19 * f7)
    ensures (2 * f0) * f7 + (2 * f1) * f6 + (2 * f2) * f5 + (2 * f3) * f4 + f8 * (38 * f9) ==
              f0 * f7 + f1 * f6 + f2 * f5 + f3 * f4 + f4 * f3 +
              f5 * f2 + f6 * f1 + f7 * f0 + f8 * (19 * f9) + f9 * (19 * f8)
    ensures (2 * f0) * f8 + (2 * f1) * (2 * f7) + (2 * f2) * f6 + (2 * f3) * (2 * f5) + f4 * f4 + f9 * (38 * f9) ==
              f0 * f8 + (2 * f1) * f7 + f2 * f6 + (2 * f3) * f5 + f4 * f4 +
              (2 * f5) * f3 + f6 * f2 + (2 * f7) * f1 + f8 * f0 + (2 * f9) * (19 * f9)
    ensures (2 * f0) * f9 + (2 * f1) * f8 + (2 * f2) * f7 + (2 * f3) * f6 + (2 * f4) * f5 ==
              f0 * f9 + f1 * f8 + f2 * f7 + f3 * f6 + f4 * f5 +
              f5 * f4 + f6 * f3 + f7 * f2 + f8 * f1 + f9 * f0
  {}

  method SquareColumns(f: Fe) returns (c: Columns)
    requires Wide(f)
    ensures c.Ints() == MulColumns(Limbs(f), Limbs(f))
    ensures c.InHalfRange()
  {
    hide MulColumns;
    var f0_2, f1_2, f2_2, f3_2 := 2 * f.t0, 2 * f.t1, 2 * f.t2, 2 * f.t3;
    var f4_2, f5_2, f6_2, f7_2 := 2 * f.t4, 2 * f.t5, 2 * f.t6, 2 * f.t7;
    var f5_38, f6_19, f7_38, f8_19, f9_38 := 38 * f.t5, 19 * f.t6, 38 * f.t7, 19 * f.t8, 38 * f.t9;
    var h0 := Dot6(f.t0, f.t0, f1_2, f9_38, f2_2, f8_19, f3_2, f7_38, f4_2, f6_19, f.t5, f5_38);
    var h1 := Dot5(f0_2, f.t1, f.t2, f9_38, f3_2, f8_19, f.t4, f7_38, f5_2, f6_19);
    var h2 := Dot6(f0_2, f.t2, f1_2, f.t1, f3_2, f9_38, f4_2, f8_19, f5_2, f7_38, f.t6, f6_19);
    var h3 := Dot5(f0_2, f.t3, f1_2, f.t2, f.t4, f9_38, f5_2, f8_19, f.t6, f7_38);
    var h4 := Dot6(f0_2, f.t4, f1_2, f3_2, f.t2, f.t2, f5_2, f9_38, f6_2, f8_19, f.t7, f7_38);
    var h5 := Dot5(f0_2, f.t5, f1_2, f.t4, f2_2, f.t3, f.t6, f9_38, f7_2, f8_19);
    var h6 := Dot6(f0_2, f.t6, f1_2, f5_2, f2_2, f.t4, f3_2, f.t3, f7_2, f9_38, f.t8, f8_19);
    var h7 := Dot5(f0_2, f.t7, f1_2, f.t6, f2_2, f.t5, f3_2, f.t4, f.t8, f9_38);
    var h8 := Dot6(f0_2, f.t8, f1_2, f7_2, f2_2, f.t6, f3_2, f5_2, f.t4, f.t4, f.t9, f9_38);
    var h9 := Dot5(f0_2, f.t9, f1_2, f.t8, f2_2, f.t7, f3_2, f.t6, f4_2, f.t5);
    c := Columns(h0, h1, h2, h3, h4, h5, h6, h7, h8, h9);
    assert c.Ints() == SqColumns(Limbs(f));
    SqColumnsAreMulColumns(Limbs(f));
  }

  /** h = f * f */
  method FeSq(f: Fe) returns (h: Fe)
    requires Wide(f)
    ensures Tight(h)
    ensures Cong(Value(h), Value(f) * Value(f))
    ensures Limbs(h) == ProductLimbs(Limbs(f), Limbs(f))
  {
    hide Schoolbook, Vec.Value, CarriedFirst, CarriedLast, MulColumns;
    var c := SquareColumns(f);
    h := CarryColumns(c);
    MulColumnsSchoolbook(Limbs(f), Limbs(f));
    SchoolbookValue(Limbs(f), Limbs(f));
    CongTrans(Value(h), c.Ints().Value(), Value(f) * Value(f));
  }

  /** h = 2 * f * f */
  method FeSq2(f: Fe) returns (h: Fe)
    requires Wide(f)
    ensures Tight(h)
    ensures Cong(Value(h), 2 * (Value(f) * Value(f)))
  {
    hide Schoolbook, Vec.Value, CarriedFirst, CarriedLast, MulColumns;
    var c := SquareColumns(f);
    var d := Columns(c.h0 + c.h0, c.h1 + c.h1, c.h2 + c.h2, c.h3 + c.h3, c.h4 + c.h4,
                     c.h5 + c.h5, c.h6 + c.h6, c.h7 + c.h7, c.h8 + c.h8, c.h9 + c.h9);
    h := CarryColumns(d);
    MulColumnsSchoolbook(Limbs(f), Limbs(f));
    SchoolbookValue(Limbs(f), Limbs(f));
    assert d.Ints() == c.Ints().Plus(c.Ints());
    PlusValue(c.Ints(), c.Ints());
    CongAdd(c.Ints().Value(), Value(f) * Value(f), c.Ints().Value(), Value(f) * Value(f));
    CongTrans(Value(h), d.Ints().Value(), 2 * (Value(f) * Value(f)));
  }

  /** No limb of a sum or difference of two such elements leaves int32_t. */
  predicate Addable(f: Fe) { Bounded(f, 0x3fff_ffff, 0x3fff_ffff) }

  /** fe_sq(f) is fe_mul(f, f), limb for limb. */
  method SquareBothWays(f: Fe) returns (h: Fe, k: Fe)
    requires Wide(f)
    ensures h == k && Tight(h)
  {
    hide ProductLimbs;
    h := FeSq(f);
    k := FeMul(f, f);
  }

  /** h = f + g */
  method FeAdd(f: Fe, g: Fe) returns (h: Fe)
    requires Addable(f) && Addable(g)
    ensures Limbs(h) == Limbs(f).Plus(Limbs(g))
    ensures Value(h) == Value(f) + Value(g)
  {
    hide Vec.Value;
    h := Fe(f.t0 + g.t0, f.t1 + g.t1, f.t2 + g.t2, f.t3 + g.t3, f.t4 + g.t4,
            f.t5 + g.t5, f.t6 + g.t6, f.t7 + g.t7, f.t8 + g.t8, f.t9 + g.t9);
    PlusValue(Limbs(f), Limbs(g));
  }

  /** h = f - g */
  method FeSub(f: Fe, g: Fe) returns (h: Fe)
    requires Addable(f) && Addable(g)
    ensures Limbs(h).Plus(Limbs(g)) == Limbs(f)
    ensures Value(h) == Value(f) - Value(g)
  {
    hide Vec.Value;
    h := Fe(f.t0 - g.t0, f.t1 - g.t1, f.t2 - g.t2, f.t3 - g.t3, f.t4 - g.t4,
            f.t5 - g.t5, f.t6 - g.t6, f.t7 - g.t7, f.t8 - g.t8, f.t9 - g.t9);
    PlusValue(Limbs(h), Limbs(g));
  }

  /** h = -f */
  method FeNeg(f: Fe) returns (h: Fe)
    requires Addable(f)
    ensures Limbs(h) == Limbs(f).Times(-1)
    ensures Value(h) == -Value(f)
  {
    hide Vec.Value;
    h := Fe(-f.t0, -f.t1, -f.t2, -f.t3, -f.t4, -f.t5, -f.t6, -f.t7, -f.t8, -f.t9);
    TimesValue(Limbs(f), -1);
  }
}
