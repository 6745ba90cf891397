/** Scalars as byte strings: the loads and stores of src/crypto/ed25519/sc.c. */
module ScBytes {
  import opened Words
  import opened Bytes
  import opened Sc

  lemma Shr1(x: nat)
    ensures Shr(x, 1) == x / 2
  {}

  lemma Shr4(x: nat)
    ensures Shr(x, 4) == x / 16
  {
    assert Shr(x, 4) == Shr(x / 2, 3) == Shr(x / 4, 2) == Shr(x / 8, 1);
  }

  lemma Shr8(x: nat)
    ensures Shr(x, 8) == x / 256
  {
    hide Shr;
    ShrShr(x, 4, 4);
    Shr4(x);
    Shr4(x / 16);
  }

  lemma Shr21(x: nat)
    ensures Shr(x, 21) == x / 0x200000
  {
    hide Shr;
    Shr8(x);
    ShrShr(x, 8, 8);
    Shr8(x / 0x100);
    ShrShr(x, 16, 4);
    Shr4(x / 0x10000);
    ShrShr(x, 20, 1);
    Shr1(x / 0x100000);
  }

  /** Bits at 2^21 and above do not reach a limb. */
  lemma ShrMod(x: nat, y: nat, k: nat, r: nat)
    requires r + 21 <= k
    ensures Shr(x + Pow2(k) * y, r) % 0x200000 == Shr(x, r) % 0x200000
  {
    hide Shr, Pow2;
    ShrAdd(x, y, k, r);
    Pow2Add(21, k - r - 21);
    Powers21();
    ModAdd(Shr(x, r), 0x200000, Pow2(k - r - 21), y);
  }

  lemma ModAdd(a: nat, m: nat, c: nat, y: nat)
    requires m > 0
    ensures (a + (m * c) * y) % m == a % m
  {
    assert a + (m * c) * y == m * (a / m + c * y) + a % m by {
      assert (m * c) * y == m * (c * y);
    }
    ModUnique(a + (m * c) * y, m, a / m + c * y, a % m);
  }

  /** Dropping bytes is shifting. */
  lemma {:induction false} DropBytes(s: seq<byte>, j: nat)
    requires j <= |s|
    ensures LittleEndian(s[j..]) == Shr(LittleEndian(s), 8 * j)
  {
    if j == 0 {
      assert s[0..] == s;
    } else {
      DropBytes(s, j - 1);
      Next(s, j - 1);
      ShrShr(LittleEndian(s), 8 * (j - 1), 8);
      Shr8(LittleEndian(s[j - 1..]));
    }
  }

  /** 2097151 & x. */
  function Mask21(x: nat): (r: i64)
    ensures r as int == x % 0x200000
  {
    Powers21();
    AndMask(21, x);
    BitAnd(2097151, x) as i64
  }

  lemma Powers21()
    ensures Pow2(21) == 0x200000
  {
    Powers();
    Pow2Add(16, 5);
  }

  /** The 21-bit limb of x at bit position 21 k. */
  function Limb(x: nat, k: nat): nat { Shr(x, 21 * k) % 0x200000 }

  lemma LimbIs(x: nat, k: nat)
    ensures Limb(x, k) == Shr(x, 21 * k) % 0x200000
  {}

  lemma Tail3(s: seq<byte>, j: nat)
    requires j + 3 <= |s|
    ensures LittleEndian(s[j..]) == Load3(s, j) + Pow2(24) * LittleEndian(s[j + 3..])
  {
    hide LittleEndian, Load3, Pow2;
    Load3Value(s, j);
    Powers();
    Next(s, j);
    Next(s, j + 1);
    Next(s, j + 2);
  }

  lemma Tail4(s: seq<byte>, j: nat)
    requires j + 4 <= |s|
    ensures LittleEndian(s[j..]) == Load4(s, j) + Pow2(32) * LittleEndian(s[j + 4..])
  {
    hide LittleEndian, Load4, Pow2;
    Load4Value(s, j);
    Pow2of32();
    Next4(s, j);
  }

  lemma LimbFrom3(s: seq<byte>, j: nat, r: nat, k: nat)
    requires j + 3 <= |s| && r < 4 && 8 * j + r == 21 * k
    ensures Mask21(Shr(Load3(s, j), r)) as int == Limb(LittleEndian(s), k)
  {
    hide *;
    Tail3(s, j);
    DropBytes(s, j);
    ShrShr(LittleEndian(s), 8 * j, r);
    LimbIs(LittleEndian(s), k);
    ShrMod(Load3(s, j), LittleEndian(s[j + 3..]), 24, r);
  }

  lemma LimbFrom4(s: seq<byte>, j: nat, r: nat, k: nat)
    requires j + 4 <= |s| && r < 8 && 8 * j + r == 21 * k
    ensures Mask21(Shr(Load4(s, j), r)) as int == Limb(LittleEndian(s), k)
  {
    hide *;
    Tail4(s, j);
    DropBytes(s, j);
    ShrShr(LittleEndian(s), 8 * j, r);
    LimbIs(LittleEndian(s), k);
    ShrMod(Load4(s, j), LittleEndian(s[j + 4..]), 32, r);
  }

  /** The last limb takes all four bytes that are left. */
  lemma LimbFromLast(s: seq<byte>, j: nat, r: nat, k: nat)
    requires j + 4 == |s| && r < 8 && 8 * j + r == 21 * k
    ensures Shr(Load4(s, j), r) == Shr(LittleEndian(s), 21 * k)
  {
    hide *;
    Tail4(s, j);
    DropBytes(s, j);
    ShrShr(LittleEndian(s), 8 * j, r);
    assert s[j + 4..] == [];
    EmptyValue();
  }

  lemma EmptyValue()
    ensures LittleEndian([]) == 0
  {}

  /** Limbs of x, the last one holding all that remains, have value x. */
  lemma {:induction false} LimbsValue(t: seq<i64>, x: nat)
    requires |t| > 0
    requires forall k :: 0 <= k < |t| - 1 ==> t[k] as int == Limb(x, k)
    requires t[|t| - 1] as int == Shr(x, 21 * (|t| - 1))
    ensures Value(t) == x
  {
    LimbsFrom(t, x, 0);
    assert t[0..] == t;
  }

  lemma {:induction false} LimbsFrom(t: seq<i64>, x: nat, i: nat)
    requires i < |t|
    requires forall k :: 0 <= k < |t| - 1 ==> t[k] as int == Limb(x, k)
    requires t[|t| - 1] as int == Shr(x, 21 * (|t| - 1))
    ensures Value(t[i..]) == Shr(x, 21 * i)
    decreases |t| - i
  {
    Step(t, i);
    if i + 1 < |t| {
      LimbsFrom(t, x, i + 1);
      ShrShr(x, 21 * i, 21);
      Shr21(Shr(x, 21 * i));
    } else {
      assert t[i + 1..] == [];
    }
  }

  lemma {:induction false} TailNonNegative(t: seq<i64>, i: nat)
    requires i <= |t| && forall j :: i <= j < |t| ==> t[j] >= 0
    ensures Value(t[i..]) >= 0
    decreases |t| - i
  {
    if i < |t| {
      Step(t, i);
      TailNonNegative(t, i + 1);
    }
  }

  /** Dropping digits is shifting. */
  lemma {:induction false} DropLimbs(t: seq<i64>, i: nat)
    requires i <= |t| && forall j :: 0 <= j < |t| ==> t[j] >= 0
    requires forall j :: 0 <= j < i ==> t[j] < 0x200000
    ensures Value(t) >= 0 && Value(t[i..]) == Shr(Value(t), 21 * i)
  {
    TailNonNegative(t, 0);
    assert t[0..] == t;
    if i > 0 {
      DropLimbs(t, i - 1);
      Step(t, i - 1);
      TailNonNegative(t, i);
      ShrShr(Value(t), 21 * (i - 1), 21);
      Shr21(Value(t[i - 1..]));
    }
  }

  /** A byte inside limb i. */
  lemma StoreByte(t: seq<i64>, i: nat, r: nat, k: nat)
    requires Canonical(t) && i < 12 && r <= 13 && 8 * k == 21 * i + r
    ensures Value(t) >= 0 && Byte(Shr(t[i] as nat, r)) as int == Shr(Value(t), 8 * k) % 256
  {
    hide Shr, Pow2, Value, Canonical;
    Tail(t, i);
    ShrShr(Value(t), 21 * i, r);
    ShrAdd(t[i] as nat, Value(t[i + 1..]), 21, r);
    Pow2Add(8, 13 - r);
    Powers();
    ModAdd(Shr(t[i] as nat, r), 256, Pow2(13 - r), Value(t[i + 1..]));
  }

  lemma Tail(t: seq<i64>, i: nat)
    requires Canonical(t) && i < 12
    ensures |t| == 24 && Value(t) >= 0 && Value(t[i + 1..]) >= 0 && t[i] >= 0
    ensures Value(t[i..]) == Shr(Value(t), 21 * i) == t[i] as int + Pow2(21) * Value(t[i + 1..])
    ensures i == 11 ==> Value(t[i + 1..]) == 0
  {
    hide Shr, Pow2, Value;
    DropLimbs(t, i);
    Step(t, i);
    TailNonNegative(t, i + 1);
    Powers21();
    if i == 11 { ZeroValue(t[12..]); }
  }

  /** A byte with its low bits in limb i and its high bits in limb i + 1. */
  lemma StoreJoin(t: seq<i64>, i: nat, r: nat, k: nat, l: nat, m: nat)
    requires Canonical(t) && i < 11 && 8 * k == 21 * i + r && r + l == 21 && 0 < l < 8 && m == Pow2(l)
    ensures Value(t) >= 0 && Byte(BitOr(Shr(t[i] as nat, r), t[i + 1] as nat * m)) as int == Shr(Value(t), 8 * k) % 256
  {
    hide *;
    Tail(t, i);
    Tail(t, i + 1);
    ShrShr(Value(t), 21 * i, r);
    ShrAdd(t[i] as nat, Value(t[i + 1..]), 21, r);
    ShrSmall(t, i, r, l);
    JoinLimbs(Shr(t[i] as nat, r), t[i + 1] as nat, Value(t[i + 2..]), l);
  }

  lemma JoinLimbs(x: nat, y: nat, z: nat, l: nat)
    requires x < Pow2(l) && 0 < l < 8
    ensures Byte(BitOr(x, y * Pow2(l))) as int == (x + Pow2(l) * (y + Pow2(21) * z)) % 256
  {
    hide *;
    var m, n := Pow2(l), Pow2(8 - l);
    Pow2Add(l, 8 - l);
    Powers();
    JoinByte(x, y, l, m, n);
    Pow2Add(8 - l, 13 + l);
    ModAdd(y, n, Pow2(13 + l), z);
    JoinMod(x, y + Pow2(21) * z, m, n);
  }

  lemma JoinMod(x: nat, y: nat, m: nat, n: nat)
    requires m * n == 256 && x < m && n > 0
    ensures (x + m * y) % 256 == x + m * (y % n)
  {
    Euclid(y, n);
    JoinSum(x, y, m, n, y / n, y % n);
    ModUnique(x + m * y, 256, y / n, x + m * (y % n));
  }

  lemma ShrSmall(t: seq<i64>, i: nat, r: nat, l: nat)
    requires Canonical(t) && i < 11 && r + l == 21
    ensures Shr(t[i] as nat, r) < Pow2(l)
  {
    Powers21();
    ShrBelow(t[i] as nat, r, l);
  }

  lemma {:induction false} ShrBelow(x: nat, r: nat, l: nat)
    requires x < Pow2(r + l)
    ensures Shr(x, r) < Pow2(l)
  {
    if r > 0 { ShrBelow(x / 2, r - 1, l); }
  }

  /** The last byte, from the top of limb 11. */
  lemma StoreLast(t: seq<i64>)
    requires Canonical(t)
    ensures Value(t) >= 0 && Byte(Shr(t[11] as nat, 17)) as int == Shr(Value(t), 248) % 256
  {
    hide Shr, Pow2, Value, Canonical;
    Tail(t, 11);
    ShrShr(Value(t), 231, 17);
  }

  /** s[0] .. s[15] as sc_reduce and sc_muladd write them. */
  function StoreLow(t: seq<i64>): (s: seq<byte>)
    requires Canonical(t)
    ensures |s| == 16
  {
    [Byte(Shr(t[0] as nat, 0)), Byte(Shr(t[0] as nat, 8)), Byte(BitOr(Shr(t[0] as nat, 16), t[1] as nat * 32)),
     Byte(Shr(t[1] as nat, 3)), Byte(Shr(t[1] as nat, 11)), Byte(BitOr(Shr(t[1] as nat, 19), t[2] as nat * 4)),
     Byte(Shr(t[2] as nat, 6)), Byte(BitOr(Shr(t[2] as nat, 14), t[3] as nat * 128)), Byte(Shr(t[3] as nat, 1)),
     Byte(Shr(t[3] as nat, 9)), Byte(BitOr(Shr(t[3] as nat, 17), t[4] as nat * 16)), Byte(Shr(t[4] as nat, 4)),
     Byte(Shr(t[4] as nat, 12)), Byte(BitOr(Shr(t[4] as nat, 20), t[5] as nat * 2)), Byte(Shr(t[5] as nat, 7)),
     Byte(BitOr(Shr(t[5] as nat, 15), t[6] as nat * 64))]
  }

  /** s[16] .. s[31]. */
  function StoreHigh(t: seq<i64>): (s: seq<byte>)
    requires Canonical(t)
    ensures |s| == 16
  {
    [Byte(Shr(t[6] as nat, 2)), Byte(Shr(t[6] as nat, 10)), Byte(BitOr(Shr(t[6] as nat, 18), t[7] as nat * 8)),
     Byte(Shr(t[7] as nat, 5)), Byte(Shr(t[7] as nat, 13)), Byte(Shr(t[8] as nat, 0)),
     Byte(Shr(t[8] as nat, 8)), Byte(BitOr(Shr(t[8] as nat, 16), t[9] as nat * 32)), Byte(Shr(t[9] as nat, 3)),
     Byte(Shr(t[9] as nat, 11)), Byte(BitOr(Shr(t[9] as nat, 19), t[10] as nat * 4)), Byte(Shr(t[10] as nat, 6)),
     Byte(BitOr(Shr(t[10] as nat, 14), t[11] as nat * 128)), Byte(Shr(t[11] as nat, 1)), Byte(Shr(t[11] as nat, 9)),
     Byte(Shr(t[11] as nat, 17))]
  }

  function Store(t: seq<i64>): (s: seq<byte>)
    requires Canonical(t)
    ensures |s| == 32
  {
    StoreLow(t) + StoreHigh(t)
  }

  lemma StoreBytesLow(t: seq<i64>, k: nat)
    requires Canonical(t) && k < 16
    ensures Value(t) >= 0 && StoreLow(t)[k] as int == Shr(Value(t), 8 * k) % 256
  {
    hide Shr, Pow2, Value, BitOr, Byte, Canonical;
    SmallPowers();
    Pow2of7();
    match k
    case 0 => StoreByte(t, 0, 0, 0);
    case 1 => StoreByte(t, 0, 8, 1);
    case 2 => StoreJoin(t, 0, 16, 2, 5, 32);
    case 3 => StoreByte(t, 1, 3, 3);
    case 4 => StoreByte(t, 1, 11, 4);
    case 5 => StoreJoin(t, 1, 19, 5, 2, 4);
    case 6 => StoreByte(t, 2, 6, 6);
    case 7 => StoreJoin(t, 2, 14, 7, 7, 128);
    case 8 => StoreByte(t, 3, 1, 8);
    case 9 => StoreByte(t, 3, 9, 9);
    case 10 => StoreJoin(t, 3, 17, 10, 4, 16);
    case 11 => StoreByte(t, 4, 4, 11);
    case 12 => StoreByte(t, 4, 12, 12);
    case 13 => StoreJoin(t, 4, 20, 13, 1, 2);
    case 14 => StoreByte(t, 5, 7, 14);
    case 15 => StoreJoin(t, 5, 15, 15, 6, 64);
  }

  lemma StoreBytesHigh(t: seq<i64>, k: nat)
    requires Canonical(t) && 16 <= k < 32
    ensures Value(t) >= 0 && StoreHigh(t)[k - 16] as int == Shr(Value(t), 8 * k) % 256
  {
    hide Shr, Pow2, Value, BitOr, Byte, Canonical;
    SmallPowers();
    Pow2of7();
    match k
    case 16 => StoreByte(t, 6, 2, 16);
    case 17 => StoreByte(t, 6, 10, 17);
    case 18 => StoreJoin(t, 6, 18, 18, 3, 8);
    case 19 => StoreByte(t, 7, 5, 19);
    case 20 => StoreByte(t, 7, 13, 20);
    case 21 => StoreByte(t, 8, 0, 21);
    case 22 => StoreByte(t, 8, 8, 22);
    case 23 => StoreJoin(t, 8, 16, 23, 5, 32);
    case 24 => StoreByte(t, 9, 3, 24);
    case 25 => StoreByte(t, 9, 11, 25);
    case 26 => StoreJoin(t, 9, 19, 26, 2, 4);
    case 27 => StoreByte(t, 10, 6, 27);
    case 28 => StoreJoin(t, 10, 14, 28, 7, 128);
    case 29 => StoreByte(t, 11, 1, 29);
    case 30 => StoreByte(t, 11, 9, 30);
    case 31 => StoreLast(t);
  }

  lemma ShrZero()
    ensures forall x: nat :: Shr(x, 0) == x
  {}

  lemma LastLimb(s: seq<byte>, j: nat, r: nat)
    requires j + 4 <= |s| && r <= 32
    ensures Shr(Load4(s, j), r) < Pow2(32 - r)
  {
    hide Load4, Shr, Pow2;
    Load4Value(s, j);
    Pow2of32();
    ShrBelow(Load4(s, j), r, 32 - r);
  }

  lemma PowersLast()
    ensures Pow2(29) == 0x2000_0000 && Pow2(25) == 0x200_0000
  {
    Powers();
    SmallPowers();
    Pow2Add(24, 5);
    Pow2Add(24, 1);
  }

  /** s0 .. s11 as sc_reduce reads them. */
  function Load24Low(s: seq<byte>): (t: seq<i64>)
    requires |s| == 64
    ensures |t| == 12
  {
    [Mask21(Load3(s, 0)), Mask21(Shr(Load4(s, 2), 5)), Mask21(Shr(Load3(s, 5), 2)), Mask21(Shr(Load4(s, 7), 7)),
     Mask21(Shr(Load4(s, 10), 4)), Mask21(Shr(Load3(s, 13), 1)), Mask21(Shr(Load4(s, 15), 6)),
     Mask21(Shr(Load3(s, 18), 3)),
     Mask21(Load3(s, 21)), Mask21(Shr(Load4(s, 23), 5)), Mask21(Shr(Load3(s, 26), 2)), Mask21(Shr(Load4(s, 28), 7))]
  }

  /** s12 .. s23; the last one is not masked. */
  function Load24High(s: seq<byte>): (t: seq<i64>)
    requires |s| == 64
    ensures |t| == 12
  {
    LastLimb(s, 60, 3);
    PowersLast();
    [Mask21(Shr(Load4(s, 31), 4)), Mask21(Shr(Load3(s, 34), 1)), Mask21(Shr(Load4(s, 36), 6)),
     Mask21(Shr(Load3(s, 39), 3)),
     Mask21(Load3(s, 42)), Mask21(Shr(Load4(s, 44), 5)), Mask21(Shr(Load3(s, 47), 2)), Mask21(Shr(Load4(s, 49), 7)),
     Mask21(Shr(Load4(s, 52), 4)), Mask21(Shr(Load3(s, 55), 1)), Mask21(Shr(Load4(s, 57), 6)),
     Shr(Load4(s, 60), 3) as i64]
  }

  function Load24(s: seq<byte>): (t: seq<i64>)
    requires |s| == 64
    ensures |t| == 24
  {
    Load24Low(s) + Load24High(s)
  }

  lemma Load24LimbsLow(s: seq<byte>, k: nat)
    requires |s| == 64 && k < 12
    ensures Load24Low(s)[k] as int == Limb(LittleEndian(s), k)
  {
    hide Shr, Load3, Load4, LittleEndian, Mask21, Limb;
    ShrZero();
    match k
    case 0 => LimbFrom3(s, 0, 0, 0);
    case 1 => LimbFrom4(s, 2, 5, 1);
    case 2 => LimbFrom3(s, 5, 2, 2);
    case 3 => LimbFrom4(s, 7, 7, 3);
    case 4 => LimbFrom4(s, 10, 4, 4);
    case 5 => LimbFrom3(s, 13, 1, 5);
    case 6 => LimbFrom4(s, 15, 6, 6);
    case 7 => LimbFrom3(s, 18, 3, 7);
    case 8 => LimbFrom3(s, 21, 0, 8);
    case 9 => LimbFrom4(s, 23, 5, 9);
    case 10 => LimbFrom3(s, 26, 2, 10);
    case 11 => LimbFrom4(s, 28, 7, 11);
  }

  lemma Load24LimbsHigh(s: seq<byte>, k: nat)
    requires |s| == 64 && 12 <= k < 23
    ensures Load24High(s)[k - 12] as int == Limb(LittleEndian(s), k)
  {
    hide Shr, Load3, Load4, LittleEndian, Mask21, Limb;
    ShrZero();
    match k
    case 12 => LimbFrom4(s, 31, 4, 12);
    case 13 => LimbFrom3(s, 34, 1, 13);
    case 14 => LimbFrom4(s, 36, 6, 14);
    case 15 => LimbFrom3(s, 39, 3, 15);
    case 16 => LimbFrom3(s, 42, 0, 16);
    case 17 => LimbFrom4(s, 44, 5, 17);
    case 18 => LimbFrom3(s, 47, 2, 18);
    case 19 => LimbFrom4(s, 49, 7, 19);
    case 20 => LimbFrom4(s, 52, 4, 20);
    case 21 => LimbFrom3(s, 55, 1, 21);
    case 22 => LimbFrom4(s, 57, 6, 22);
  }

  lemma Load24Last(s: seq<byte>)
    requires |s| == 64
    ensures Load24(s)[23] as int == Shr(Load4(s, 60), 3)
  {}

  lemma Load24Value(s: seq<byte>)
    requires |s| == 64
    ensures Value(Load24(s)) == LittleEndian(s)
    ensures forall k :: 0 <= k < 23 ==> 0 <= Load24(s)[k] < 0x200000
    ensures 0 <= Load24(s)[23] < 0x2000_0000
  {
    hide Shr, Load3, Load4, LittleEndian, Mask21, Value, Pow2, Load24Low, Load24High;
    Load24Last(s);
    forall k | 0 <= k < 23 ensures Load24(s)[k] as int == Limb(LittleEndian(s), k) {
      if k < 12 { Load24LimbsLow(s, k); } else { Load24LimbsHigh(s, k); }
    }
    LimbFromLast(s, 60, 3, 23);
    LastLimb(s, 60, 3);
    PowersLast();
    LimbsValue(Load24(s), LittleEndian(s));
  }

  /** The 12 limbs of a 32-byte string; the last one is not masked. */
  function Load12(s: seq<byte>): (t: seq<i64>)
    requires |s| == 32
    ensures |t| == 12
  {
    LastLimb(s, 28, 7);
    PowersLast();
    [Mask21(Load3(s, 0)), Mask21(Shr(Load4(s, 2), 5)), Mask21(Shr(Load3(s, 5), 2)), Mask21(Shr(Load4(s, 7), 7)),
     Mask21(Shr(Load4(s, 10), 4)), Mask21(Shr(Load3(s, 13), 1)), Mask21(Shr(Load4(s, 15), 6)),
     Mask21(Shr(Load3(s, 18), 3)),
     Mask21(Load3(s, 21)), Mask21(Shr(Load4(s, 23), 5)), Mask21(Shr(Load3(s, 26), 2)), Shr(Load4(s, 28), 7) as i64]
  }

  lemma Load12Limbs(s: seq<byte>, k: nat)
    requires |s| == 32 && k < 11
    ensures Load12(s)[k] as int == Limb(LittleEndian(s), k)
  {
    hide Shr, Load3, Load4, LittleEndian, Mask21, Limb;
    ShrZero();
    match k
    case 0 => LimbFrom3(s, 0, 0, 0);
    case 1 => LimbFrom4(s, 2, 5, 1);
    case 2 => LimbFrom3(s, 5, 2, 2);
    case 3 => LimbFrom4(s, 7, 7, 3);
    case 4 => LimbFrom4(s, 10, 4, 4);
    case 5 => LimbFrom3(s, 13, 1, 5);
    case 6 => LimbFrom4(s, 15, 6, 6);
    case 7 => LimbFrom3(s, 18, 3, 7);
    case 8 => LimbFrom3(s, 21, 0, 8);
    case 9 => LimbFrom4(s, 23, 5, 9);
    case 10 => LimbFrom3(s, 26, 2, 10);
  }

  lemma Load12Value(s: seq<byte>)
    requires |s| == 32
    ensures Value(Load12(s)) == LittleEndian(s)
    ensures forall k :: 0 <= k < 11 ==> 0 <= Load12(s)[k] < 0x200000
    ensures 0 <= Load12(s)[11] < 0x200_0000
  {
    hide Shr, Load3, Load4, LittleEndian, Mask21, Value, Pow2;
    forall k | 0 <= k < 11 ensures Load12(s)[k] as int == Limb(LittleEndian(s), k) { Load12Limbs(s, k); }
    LimbFromLast(s, 28, 7, 11);
    LastLimb(s, 28, 7);
    PowersLast();
    LimbsValue(Load12(s), LittleEndian(s));
  }

  /** A string whose bytes are those of x, read back. */
  lemma {:induction false} BytesValue(s: seq<byte>, x: nat, i: nat)
    requires i <= |s| && Shr(x, 8 * |s|) == 0
    requires forall k :: 0 <= k < |s| ==> s[k] as int == Shr(x, 8 * k) % 256
    ensures LittleEndian(s[i..]) == Shr(x, 8 * i)
    decreases |s| - i
  {
    if i < |s| {
      BytesValue(s, x, i + 1);
      Next(s, i);
      ShrShr(x, 8 * i, 8);
      Shr8(Shr(x, 8 * i));
    }
  }

  lemma StoreValue(t: seq<i64>)
    requires Canonical(t)
    ensures LittleEndian(Store(t)) == Value(t)
  {
    hide Shr, Value, LittleEndian, StoreLow, StoreHigh;
    StoreLast(t);
    var s, x := Store(t), Value(t);
    forall k | 0 <= k < 32 ensures s[k] as int == Shr(x, 8 * k) % 256 {
      if k < 16 { StoreBytesLow(t, k); } else { StoreBytesHigh(t, k); }
    }
    StoreFits(t);
    BytesValue(s, x, 0);
    assert s[0..] == s;
    ShrZero();
  }

  lemma StoreFits(t: seq<i64>)
    requires Canonical(t)
    ensures Value(t) >= 0 && Shr(Value(t), 256) == 0
  {
    hide Shr, Value, Pow2;
    Tail(t, 11);
    ShrShr(Value(t), 231, 25);
    Powers21();
    Pow2Add(21, 4);
    SmallPowers();
    ShrBelow(t[11] as nat, 25, 0);
    PowZero();
  }

  lemma PowZero()
    ensures Pow2(0) == 1
  {}
}
