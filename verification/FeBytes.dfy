/** Conversions between field elements and 32-byte strings (src/crypto/ed25519/fe.c). */
module FeBytes {
  import opened Words
  import opened Congruence
  import opened Bytes
  import opened Fe

  /** 2^255 */
  const TOP: int := 0x8000000000000000000000000000000000000000000000000000000000000000

  /** Four bytes as an integer. */
  function Word(s: seq<byte>, i: nat): int
    requires i + 4 <= |s|
  {
    s[i] as int + 0x100 * (s[i + 1] as int) + 0x1_0000 * (s[i + 2] as int) + 0x100_0000 * (s[i + 3] as int)
  }

  /** Sixteen bytes as an integer. */
  function Half(s: seq<byte>, i: nat): int
    requires i + 16 <= |s|
  {
    Word(s, i) + 0x1_0000_0000 * (Word(s, i + 4) + 0x1_0000_0000 * (Word(s, i + 8) + 0x1_0000_0000 * Word(s, i + 12)))
  }

  lemma NextHalf(s: seq<byte>, i: nat)
    requires i + 16 <= |s|
    ensures LittleEndian(s[i..]) == Half(s, i) + 0x1_0000_0000_0000_0000_0000_0000_0000_0000 * LittleEndian(s[i + 16..])
  {
    hide LittleEndian;
    Next4(s, i); Next4(s, i + 4); Next4(s, i + 8); Next4(s, i + 12);
  }

  lemma Halves(s: seq<byte>)
    requires |s| == 32
    ensures LittleEndian(s) == Half(s, 0) + 0x1_0000_0000_0000_0000_0000_0000_0000_0000 * Half(s, 16)
  {
    assert s[0..] == s && s[32..] == [];
    hide Half;
    NextHalf(s, 0);
    NextHalf(s, 16);
  }

  /** The limbs fe_frombytes reads, before its carries. */
  function LoadedLimbs(s: seq<byte>): Vec
    requires |s| == 32
  {
    Vec(Load4(s, 0), Load3(s, 4) * 0x40, Load3(s, 7) * 0x20, Load3(s, 10) * 8, Load3(s, 13) * 4,
        Load4(s, 16), Load3(s, 20) * 0x80, Load3(s, 23) * 0x20, Load3(s, 26) * 0x10,
        BitAnd(8388607, Load3(s, 29)) * 4)
  }

  /** Sixteen bytes read as one load_4 and four load_3. */
  lemma LoadHalf(s: seq<byte>, i: nat)
    requires i + 16 <= |s|
    ensures Load4(s, i) + 0x1_0000_0000 * (Load3(s, i + 4) + 0x100_0000 * (Load3(s, i + 7) +
              0x100_0000 * (Load3(s, i + 10) + 0x100_0000 * Load3(s, i + 13)))) == Half(s, i)
  {
    hide Load3, Load4;
    Load4Value(s, i); Load3Value(s, i + 4); Load3Value(s, i + 7); Load3Value(s, i + 10); Load3Value(s, i + 13);
  }

  lemma LoadedLimbsValue(s: seq<byte>)
    requires |s| == 32
    ensures LoadedLimbs(s).Value() == LittleEndian(s) - s[31] as int / 128 * TOP
  {
    hide Load3, Load4, BitAnd, LittleEndian, Half;
    Halves(s);
    LoadHalf(s, 0);
    LoadHalf(s, 16);
    Load3Value(s, 29);
    Mask23(Load3(s, 29));
    LimbPositions(Load4(s, 0), Load3(s, 4), Load3(s, 7), Load3(s, 10), Load3(s, 13), Load4(s, 16),
                  Load3(s, 20), Load3(s, 23), Load3(s, 26), Load3(s, 29), s[31] as int / 128,
                  BitAnd(8388607, Load3(s, 29)));
  }

  lemma LimbPositions(a0: int, a1: int, a2: int, a3: int, a4: int, a5: int, a6: int, a7: int, a8: int, a9: int,
                      top: int, low: int)
    requires a9 == low + 8388608 * top
    ensures Vec(a0, a1 * 0x40, a2 * 0x20, a3 * 8, a4 * 4, a5, a6 * 0x80, a7 * 0x20, a8 * 0x10, low * 4).Value() ==
      a0 + 0x1_0000_0000 * (a1 + 0x100_0000 * (a2 + 0x100_0000 * (a3 + 0x100_0000 * a4))) +
      0x1_0000_0000_0000_0000_0000_0000_0000_0000 *
        (a5 + 0x1_0000_0000 * (a6 + 0x100_0000 * (a7 + 0x100_0000 * (a8 + 0x100_0000 * a9)))) - top * TOP
  {
    hide Vec.Value;
    Unfold(Vec(a0, a1 * 0x40, a2 * 0x20, a3 * 8, a4 * 4, a5, a6 * 0x80, a7 * 0x20, a8 * 0x10, low * 4));
  }

  lemma Mask23(x: nat)
    ensures BitAnd(8388607, x) == x % 8388608
  {
    Pow2Add(16, 7);
    Powers();
    AndMask(23, x);
  }

  /** h = s modulo 2^255, ignoring the top bit of s. */
  method FeFromBytes(s: seq<byte>) returns (h: Fe)
    requires |s| == 32
    ensures Tight(h)
    ensures Cong(Value(h), LittleEndian(s) % TOP)
  {
    hide Load3, Load4, BitAnd, LittleEndian, Vec.Value, Over26, Over25;
    Load4Value(s, 0); Load3Value(s, 4); Load3Value(s, 7); Load3Value(s, 10); Load3Value(s, 13);
    Load4Value(s, 16); Load3Value(s, 20); Load3Value(s, 23); Load3Value(s, 26); Load3Value(s, 29);
    Mask23(Load3(s, 29));
    var h0: i64, h1: i64, h2: i64 := Load4(s, 0) as i64, Load3(s, 4) as i64 * 0x40, Load3(s, 7) as i64 * 0x20;
    var h3: i64, h4: i64, h5: i64 := Load3(s, 10) as i64 * 8, Load3(s, 13) as i64 * 4, Load4(s, 16) as i64;
    var h6: i64, h7: i64, h8: i64 := Load3(s, 20) as i64 * 0x80, Load3(s, 23) as i64 * 0x20, Load3(s, 26) as i64 * 0x10;
    var h9: i64 := BitAnd(8388607, Load3(s, 29)) as i64 * 4;
    var carry0, carry1, carry2, carry3, carry4, carry5, carry6, carry7, carry8, carry9;
    carry9, h9 := Round25(h9);
    h0 := h0 + carry9 * 19;
    carry1, h1 := Round25(h1);
    h2 := h2 + carry1;
    carry3, h3 := Round25(h3);
    h4 := h4 + carry3;
    carry5, h5 := Round25(h5);
    h6 := h6 + carry5;
    carry7, h7 := Round25(h7);
    h8 := h8 + carry7;
    carry0, h0 := Round26(h0);
    h1 := h1 + carry0;
    carry2, h2 := Round26(h2);
    h3 := h3 + carry2;
    carry4, h4 := Round26(h4);
    h5 := h5 + carry4;
    carry6, h6 := Round26(h6);
    h7 := h7 + carry6;
    carry8, h8 := Round26(h8);
    h9 := h9 + carry8;
    h := Fe(h0 as i32, h1 as i32, h2 as i32, h3 as i32, h4 as i32,
            h5 as i32, h6 as i32, h7 as i32, h8 as i32, h9 as i32);
    FromBytesCarries(LoadedLimbs(s), Limbs(h), carry0 as int, carry1 as int, carry2 as int, carry3 as int,
                     carry4 as int, carry5 as int, carry6 as int, carry7 as int, carry8 as int, carry9 as int);
    LowBits(s);
  }

  lemma FromBytesCarries(c: Vec, h: Vec, carry0: int, carry1: int, carry2: int, carry3: int, carry4: int,
                         carry5: int, carry6: int, carry7: int, carry8: int, carry9: int)
    requires h == Vec(c.v0 + 19 * carry9 - 0x4000000 * carry0, c.v1 - 0x2000000 * carry1 + carry0,
                      c.v2 + carry1 - 0x4000000 * carry2, c.v3 - 0x2000000 * carry3 + carry2,
                      c.v4 + carry3 - 0x4000000 * carry4, c.v5 - 0x2000000 * carry5 + carry4,
                      c.v6 + carry5 - 0x4000000 * carry6, c.v7 - 0x2000000 * carry7 + carry6,
                      c.v8 + carry7 - 0x4000000 * carry8, c.v9 - 0x2000000 * carry9 + carry8)
    ensures Cong(h.Value(), c.Value())
  {
    hide Vec.Value;
    Unfold(h); Unfold(c);
    CongBy(h.Value(), c.Value(), -carry9);
  }

  lemma LowBits(s: seq<byte>)
    requires |s| == 32
    ensures LoadedLimbs(s).Value() == LittleEndian(s) % TOP && s[31] as int / 128 == LittleEndian(s) / TOP
  {
    hide LoadedLimbs, LittleEndian, Vec.Value, Half;
    LoadedLimbsValue(s);
    Halves(s);
    HalfBounds(s, 0);
    HalfBounds(s, 16);
    ModUnique(LittleEndian(s), TOP, s[31] as int / 128, LoadedLimbs(s).Value());
  }

  lemma HalfBounds(s: seq<byte>, i: nat)
    requires i + 16 <= |s|
    ensures 0 <= Half(s, i) < 0x1_0000_0000_0000_0000_0000_0000_0000_0000
    ensures var low := Half(s, i) - s[i + 15] as int / 128 * 0x8000_0000_0000_0000_0000_0000_0000_0000;
            0 <= low < 0x8000_0000_0000_0000_0000_0000_0000_0000
  {}

  /** carry = h >> 26; h -= carry << 26. */
  method Floor26(h: i32) returns (carry: i32, low: i32)
    ensures h as int == low as int + 0x4000000 * carry as int
    ensures 0 <= low < 0x4000000
  {
    carry := h / 0x4000000;
    low := h - carry * 0x4000000;
  }

  /** carry = h >> 25; h -= carry << 25. */
  method Floor25(h: i32) returns (carry: i32, low: i32)
    ensures h as int == low as int + 0x2000000 * carry as int
    ensures 0 <= low < 0x2000000
  {
    carry := h / 0x2000000;
    low := h - carry * 0x2000000;
  }

  /** The quotient that fe_tobytes estimates from the top limb is floor(h / P). */
  lemma TopLimbQuotient(v: int, h9: int, rest: int, q0: int, q: int, r: int)
    requires v == rest + 0x4000000000000000000000000000000000000000000000000000000000 * h9
    requires -0x8000000000000000000000000000000000000000000000000000000000 <= rest
    requires rest <= 0x8000000000000000000000000000000000000000000000000000000000
    requires -73819750 <= h9 <= 73819750
    requires 0x2000000 * q0 <= 19 * h9 + 0x1000000 < 0x2000000 * q0 + 0x2000000
    requires v + q0 == r + TOP * q && 0 <= r < TOP
    ensures 0 <= v - q * P < P
  {
  }

  /** The low sixteen bytes that fe_tobytes writes. */
  function PackLow(h0: nat, h1: nat, h2: nat, h3: nat, h4: nat): (s: seq<byte>)
    ensures |s| == 16
  {
    [Byte(h0), Byte(h0 / 0x100), Byte(h0 / 0x10000), Byte(BitOr(h0 / 0x1000000, h1 * 0x4)), Byte(h1 / 0x40),
     Byte(h1 / 0x4000), Byte(BitOr(h1 / 0x400000, h2 * 0x8)), Byte(h2 / 0x20), Byte(h2 / 0x2000),
     Byte(BitOr(h2 / 0x200000, h3 * 0x20)), Byte(h3 / 0x8), Byte(h3 / 0x800),
     Byte(BitOr(h3 / 0x80000, h4 * 0x40)), Byte(h4 / 0x4), Byte(h4 / 0x400), Byte(h4 / 0x40000)]
  }

  /** The high sixteen bytes that fe_tobytes writes. */
  function PackHigh(h5: nat, h6: nat, h7: nat, h8: nat, h9: nat): (s: seq<byte>)
    ensures |s| == 16
  {
    [Byte(h5), Byte(h5 / 0x100), Byte(h5 / 0x10000), Byte(BitOr(h5 / 0x1000000, h6 * 0x2)), Byte(h6 / 0x80),
     Byte(h6 / 0x8000), Byte(BitOr(h6 / 0x800000, h7 * 0x8)), Byte(h7 / 0x20), Byte(h7 / 0x2000),
     Byte(BitOr(h7 / 0x200000, h8 * 0x10)), Byte(h8 / 0x10), Byte(h8 / 0x1000),
     Byte(BitOr(h8 / 0x100000, h9 * 0x40)), Byte(h9 / 0x4), Byte(h9 / 0x400), Byte(h9 / 0x40000)]
  }

  lemma SumLow(b0: int, b1: int, b2: int, b3: int, b4: int, b5: int, b6: int, b7: int,
               b8: int, b9: int, b10: int, b11: int, b12: int, b13: int, b14: int, b15: int,
               h0: int, h1: int, h2: int, h3: int, h4: int,
               l1: int, l2: int, l3: int, l4: int, u0: int, u1: int, u2: int, u3: int)
    requires h0 == b0 + 0x100 * b1 + 0x10000 * b2 + 0x1000000 * u0
    requires b3 == u0 + 0x4 * l1
    requires h1 == l1 + 0x40 * b4 + 0x4000 * b5 + 0x400000 * u1
    requires b6 == u1 + 0x8 * l2
    requires h2 == l2 + 0x20 * b7 + 0x2000 * b8 + 0x200000 * u2
    requires b9 == u2 + 0x20 * l3
    requires h3 == l3 + 0x8 * b10 + 0x800 * b11 + 0x80000 * u3
    requires b12 == u3 + 0x40 * l4
    requires h4 == l4 + 0x4 * b13 + 0x400 * b14 + 0x40000 * b15
    ensures b0 + 0x100 * b1 + 0x1_0000 * b2 + 0x100_0000 * b3
            + 0x1_0000_0000 * (b4 + 0x100 * b5 + 0x1_0000 * b6 + 0x100_0000 * b7
            + 0x1_0000_0000 * (b8 + 0x100 * b9 + 0x1_0000 * b10 + 0x100_0000 * b11
            + 0x1_0000_0000 * (b12 + 0x100 * b13 + 0x1_0000 * b14 + 0x100_0000 * b15)))
            == h0 + 0x4000000 * (h1 + 0x2000000 * (h2 + 0x4000000 * (h3 + 0x2000000 * h4)))
  {}

  lemma SumHigh(b0: int, b1: int, b2: int, b3: int, b4: int, b5: int, b6: int, b7: int,
                b8: int, b9: int, b10: int, b11: int, b12: int, b13: int, b14: int, b15: int,
                h0: int, h1: int, h2: int, h3: int, h4: int,
                l1: int, l2: int, l3: int, l4: int, u0: int, u1: int, u2: int, u3: int)
    requires h0 == b0 + 0x100 * b1 + 0x10000 * b2 + 0x1000000 * u0
    requires b3 == u0 + 0x2 * l1
    requires h1 == l1 + 0x80 * b4 + 0x8000 * b5 + 0x800000 * u1
    requires b6 == u1 + 0x8 * l2
    requires h2 == l2 + 0x20 * b7 + 0x2000 * b8 + 0x200000 * u2
    requires b9 == u2 + 0x10 * l3
    requires h3 == l3 + 0x10 * b10 + 0x1000 * b11 + 0x100000 * u3
    requires b12 == u3 + 0x40 * l4
    requires h4 == l4 + 0x4 * b13 + 0x400 * b14 + 0x40000 * b15
    ensures b0 + 0x100 * b1 + 0x1_0000 * b2 + 0x100_0000 * b3
            + 0x1_0000_0000 * (b4 + 0x100 * b5 + 0x1_0000 * b6 + 0x100_0000 * b7
            + 0x1_0000_0000 * (b8 + 0x100 * b9 + 0x1_0000 * b10 + 0x100_0000 * b11
            + 0x1_0000_0000 * (b12 + 0x100 * b13 + 0x1_0000 * b14 + 0x100_0000 * b15)))
            == h0 + 0x2000000 * (h1 + 0x4000000 * (h2 + 0x2000000 * (h3 + 0x4000000 * h4)))
  {}

  lemma PackLowValue(h0: nat, h1: nat, h2: nat, h3: nat, h4: nat)
    requires h0 < 0x4000000 && h1 < 0x2000000 && h2 < 0x4000000 && h3 < 0x2000000 && h4 < 0x4000000
    ensures Half(PackLow(h0, h1, h2, h3, h4), 0) ==
      h0 + 0x4000000 * (h1 + 0x2000000 * (h2 + 0x4000000 * (h3 + 0x2000000 * h4)))
  {
    assert Byte(h0) == h0 % 256;
    hide BitOr, Byte, Pow2;
    SmallPowers();
    JoinByte(h0 / 0x1000000, h1, 2, 4, 64);
    JoinByte(h1 / 0x400000, h2, 3, 8, 32);
    JoinByte(h2 / 0x200000, h3, 5, 32, 8);
    JoinByte(h3 / 0x80000, h4, 6, 64, 4);
    SplitLimb(h0, 256);
    SplitLimb(h1, 64);
    SplitLimb(h2, 32);
    SplitLimb(h3, 8);
    SplitLimb(h4, 4);
    SmallByte(h4 / 0x40000);
    var s := PackLow(h0, h1, h2, h3, h4);
    SumLow(s[0] as int, s[1] as int, s[2] as int, s[3] as int, s[4] as int, s[5] as int, s[6] as int, s[7] as int,
          s[8] as int, s[9] as int, s[10] as int, s[11] as int, s[12] as int, s[13] as int, s[14] as int, s[15] as int,
          h0, h1, h2, h3, h4, h1 % 64, h2 % 32, h3 % 8, h4 % 4, h0 / 0x1000000, h1 / 0x400000, h2 / 0x200000,
          h3 / 0x80000);
  }

  lemma PackHighValue(h5: nat, h6: nat, h7: nat, h8: nat, h9: nat)
    requires h5 < 0x2000000 && h6 < 0x4000000 && h7 < 0x2000000 && h8 < 0x4000000 && h9 < 0x2000000
    ensures Half(PackHigh(h5, h6, h7, h8, h9), 0) ==
      h5 + 0x2000000 * (h6 + 0x4000000 * (h7 + 0x2000000 * (h8 + 0x4000000 * h9)))
  {
    assert Byte(h5) == h5 % 256;
    hide BitOr, Byte, Pow2;
    SmallPowers();
    JoinByte(h5 / 0x1000000, h6, 1, 2, 128);
    JoinByte(h6 / 0x800000, h7, 3, 8, 32);
    JoinByte(h7 / 0x200000, h8, 4, 16, 16);
    JoinByte(h8 / 0x100000, h9, 6, 64, 4);
    SplitLimb(h5, 256);
    SplitLimb(h6, 128);
    SplitLimb(h7, 32);
    SplitLimb(h8, 16);
    SplitLimb(h9, 4);
    SmallByte(h9 / 0x40000);
    var s := PackHigh(h5, h6, h7, h8, h9);
    SumHigh(s[0] as int, s[1] as int, s[2] as int, s[3] as int, s[4] as int, s[5] as int, s[6] as int, s[7] as int,
          s[8] as int, s[9] as int, s[10] as int, s[11] as int, s[12] as int, s[13] as int, s[14] as int, s[15] as int,
          h5, h6, h7, h8, h9, h6 % 128, h7 % 32, h8 % 16, h9 % 4, h5 / 0x1000000, h6 / 0x800000, h7 / 0x200000,
          h8 / 0x100000);
  }

  /** Carrying c from digit to digit, with q0 added at the bottom, leaves the digits r and q10 above them. */
  lemma CarryThrough(c: Vec, r: Vec, q0: int, q1: int, q2: int, q3: int, q4: int, q5: int,
                     q6: int, q7: int, q8: int, q9: int, q10: int)
    requires c.v0 + q0 == r.v0 + 0x4000000 * q1 && c.v1 + q1 == r.v1 + 0x2000000 * q2
    requires c.v2 + q2 == r.v2 + 0x4000000 * q3 && c.v3 + q3 == r.v3 + 0x2000000 * q4
    requires c.v4 + q4 == r.v4 + 0x4000000 * q5 && c.v5 + q5 == r.v5 + 0x2000000 * q6
    requires c.v6 + q6 == r.v6 + 0x4000000 * q7 && c.v7 + q7 == r.v7 + 0x2000000 * q8
    requires c.v8 + q8 == r.v8 + 0x4000000 * q9 && c.v9 + q9 == r.v9 + 0x2000000 * q10
    ensures c.Value() + q0 == r.Value() + TOP * q10
  {
    hide Vec.Value;
    Unfold(c); Unfold(r);
  }

  predicate Digits(r: Vec) {
    && 0 <= r.v0 < 0x4000000 && 0 <= r.v1 < 0x2000000 && 0 <= r.v2 < 0x4000000 && 0 <= r.v3 < 0x2000000
    && 0 <= r.v4 < 0x4000000 && 0 <= r.v5 < 0x2000000 && 0 <= r.v6 < 0x4000000 && 0 <= r.v7 < 0x2000000
    && 0 <= r.v8 < 0x4000000 && 0 <= r.v9 < 0x2000000
  }

  lemma DigitsBound(r: Vec)
    requires Digits(r)
    ensures 0 <= r.Value() < TOP
  {
    hide Vec.Value;
    Unfold(r);
  }

  /** 1.1 * 2^26 and 1.1 * 2^25 (rounded down): what fe_tobytes accepts. */
  predicate Encodable(h: Fe) { Bounded(h, 73819750, 36909875) }

  lemma BelowTopLimb(h: Fe)
    requires Encodable(h)
    ensures var rest := Value(h) - 0x4000000000000000000000000000000000000000000000000000000000 * h.t9 as int;
            && -0x8000000000000000000000000000000000000000000000000000000000 <= rest
            && rest <= 0x8000000000000000000000000000000000000000000000000000000000
  {
    hide Vec.Value;
    Unfold(Limbs(h));
  }

  /** q = floor(h / P), computed by a chain of shifts. */
  method EstimateQuotient(h: Fe) returns (q: i32)
    requires Encodable(h)
    ensures 0 <= Value(h) - q as int * P < P
    ensures -3 <= q <= 3
  {
    hide Vec.Value;
    var q0, q1, q2, q3, q4, q5, q6, q7, q8, q9, q10, r0, r1, r2, r3, r4, r5, r6, r7, r8, r9;
    q0 := (19 * h.t9 + 0x1000000) / 0x2000000;
    q1, r0 := Floor26(h.t0 + q0);
    q2, r1 := Floor25(h.t1 + q1);
    q3, r2 := Floor26(h.t2 + q2);
    q4, r3 := Floor25(h.t3 + q3);
    q5, r4 := Floor26(h.t4 + q4);
    q6, r5 := Floor25(h.t5 + q5);
    q7, r6 := Floor26(h.t6 + q6);
    q8, r7 := Floor25(h.t7 + q7);
    q9, r8 := Floor26(h.t8 + q8);
    q10, r9 := Floor25(h.t9 + q9);
    q := q10;
    ghost var r := Vec(r0 as int, r1 as int, r2 as int, r3 as int, r4 as int,
                       r5 as int, r6 as int, r7 as int, r8 as int, r9 as int);
    CarryThrough(Limbs(h), r, q0 as int, q1 as int, q2 as int, q3 as int, q4 as int, q5 as int,
                 q6 as int, q7 as int, q8 as int, q9 as int, q10 as int);
    DigitsBound(r);
    BelowTopLimb(h);
    ghost var rest := Value(h) - 0x4000000000000000000000000000000000000000000000000000000000 * h.t9 as int;
    TopLimbQuotient(Value(h), h.t9 as int, rest, q0 as int, q10 as int, r.Value());
  }

  /** The unique little-endian encoding of h modulo P. */
  method FeToBytes(h: Fe) returns (s: seq<byte>)
    requires Encodable(h)
    ensures |s| == 32
    ensures LittleEndian(s) == Value(h) % P
  {
    hide Vec.Value, PackLow, PackHigh, LittleEndian;
    var q := EstimateQuotient(h);
    var h0, h1, h2, h3, h4, h5, h6, h7, h8, h9 := h.t0, h.t1, h.t2, h.t3, h.t4, h.t5, h.t6, h.t7, h.t8, h.t9;
    var carry0, carry1, carry2, carry3, carry4, carry5, carry6, carry7, carry8, carry9;
    h0 := h0 + 19 * q;
    carry0, h0 := Floor26(h0);
    h1 := h1 + carry0;
    carry1, h1 := Floor25(h1);
    h2 := h2 + carry1;
    carry2, h2 := Floor26(h2);
    h3 := h3 + carry2;
    carry3, h3 := Floor25(h3);
    h4 := h4 + carry3;
    carry4, h4 := Floor26(h4);
    h5 := h5 + carry4;
    carry5, h5 := Floor25(h5);
    h6 := h6 + carry5;
    carry6, h6 := Floor26(h6);
    h7 := h7 + carry6;
    carry7, h7 := Floor25(h7);
    h8 := h8 + carry7;
    carry8, h8 := Floor26(h8);
    h9 := h9 + carry8;
    carry9, h9 := Floor25(h9);
    ghost var r := Vec(h0 as int, h1 as int, h2 as int, h3 as int, h4 as int,
                       h5 as int, h6 as int, h7 as int, h8 as int, h9 as int);
    CarryThrough(Limbs(h), r, 19 * q as int, carry0 as int, carry1 as int, carry2 as int, carry3 as int, carry4 as int,
                 carry5 as int, carry6 as int, carry7 as int, carry8 as int, carry9 as int);
    s := PackLow(h0 as int, h1 as int, h2 as int, h3 as int, h4 as int) +
         PackHigh(h5 as int, h6 as int, h7 as int, h8 as int, h9 as int);
    DigitsBound(r);
    PackedValue(r);
    CarriedOut(Value(h), q as int, carry9 as int, r.Value());
  }

  /** The final carry is the quotient, so the digits are the remainder. */
  lemma CarriedOut(v: int, q: int, carry9: int, r: int)
    requires v + 19 * q == r + TOP * carry9 && 0 <= r < TOP
    requires 0 <= v - q * P < P
    ensures v % P == r
  {
    assert carry9 == q;
    ModUnique(v, P, q, r);
  }

  lemma PackedValue(r: Vec)
    requires Digits(r)
    ensures LittleEndian(PackLow(r.v0, r.v1, r.v2, r.v3, r.v4) + PackHigh(r.v5, r.v6, r.v7, r.v8, r.v9)) == r.Value()
  {
    hide PackLow, PackHigh, LittleEndian, Half, Vec.Value;
    Unfold(r);
    var low, high := PackLow(r.v0, r.v1, r.v2, r.v3, r.v4), PackHigh(r.v5, r.v6, r.v7, r.v8, r.v9);
    PackLowValue(r.v0, r.v1, r.v2, r.v3, r.v4);
    PackHighValue(r.v5, r.v6, r.v7, r.v8, r.v9);
    Halves(low + high);
    HalfOfConcat(low, high);
  }

  lemma HalfOfConcat(low: seq<byte>, high: seq<byte>)
    requires |low| == |high| == 16
    ensures Half(low + high, 0) == Half(low, 0)
    ensures Half(low + high, 16) == Half(high, 0)
  {}

  /** Decoding and encoding: the identity on encodings below P, reduction modulo P otherwise. */
  method Recode(s: seq<byte>) returns (t: seq<byte>)
    requires |s| == 32
    ensures |t| == 32 && LittleEndian(t) == (LittleEndian(s) % TOP) % P
    ensures LittleEndian(s) < P <==> t == s
  {
    hide LittleEndian;
    var h := FeFromBytes(s);
    t := FeToBytes(h);
    SameResidue(Value(h), LittleEndian(s) % TOP);
    AlreadyReduced(LittleEndian(s));
    if LittleEndian(t) == LittleEndian(s) { LittleEndianInjective(s, t); }
  }

  lemma AlreadyReduced(x: nat)
    ensures (x % TOP) % P == x <==> x < P
  {}

  /** Whether f is nonzero modulo P. */
  method FeIsNonzero(f: Fe) returns (r: bool)
    requires Encodable(f)
    ensures r <==> Value(f) % P != 0
  {
    hide *;
    var s := FeToBytes(f);
    var acc: nat := s[0] as int;
    for i := 1 to 32
      invariant acc == 0 <==> forall j :: 0 <= j < i ==> s[j] == 0
    {
      OrIsZero(acc, s[i] as int);
      acc := BitOr(acc, s[i] as int);
    }
    ZeroBytes(s);
    r := acc != 0;
  }

  /** The parity of f reduced modulo P. */
  method FeIsNegative(f: Fe) returns (r: int)
    requires Encodable(f)
    ensures r == (Value(f) % P) % 2
  {
    hide *;
    var s := FeToBytes(f);
    LowBit(s);
    r := BitAnd(1, s[0] as int);
  }

  lemma LowBit(s: seq<byte>)
    requires s != []
    ensures BitAnd(1, s[0] as int) == LittleEndian(s) % 2
  {
    AndMask(1, s[0] as int);
  }
}
