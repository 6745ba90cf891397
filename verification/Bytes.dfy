/** Byte strings as little-endian integers, and the bit operators of the C sources on naturals. */
module Bytes {
  import opened Words

  function Pow2(k: nat): (p: nat)
    ensures p > 0
  {
    if k == 0 then 1 else 2 * Pow2(k - 1)
  }

  lemma {:induction false} Pow2Add(a: nat, b: nat)
    ensures Pow2(a + b) == Pow2(a) * Pow2(b)
  {
    if a > 0 { Pow2Add(a - 1, b); }
  }

  /** s[0] + 256 s[1] + 256^2 s[2] + ... */
  function LittleEndian(s: seq<byte>): (n: nat) {
    if s == [] then 0 else s[0] as int + 256 * LittleEndian(s[1..])
  }

  lemma {:induction false} LittleEndianBound(s: seq<byte>)
    ensures LittleEndian(s) < Pow2(8 * |s|)
  {
    if s != [] {
      LittleEndianBound(s[1..]);
      Pow2Add(8, 8 * |s[1..]|);
      assert Pow2(8) == 256;
    }
  }

  lemma {:induction false} LittleEndianAppend(s: seq<byte>, b: byte)
    ensures LittleEndian(s + [b]) == LittleEndian(s) + Pow2(8 * |s|) * (b as int)
  {
    if s == [] {
      assert ([] + [b])[1..] == [];
    } else {
      assert (s + [b])[1..] == s[1..] + [b];
      LittleEndianAppend(s[1..], b);
      Pow2Add(8, 8 * |s[1..]|);
      Powers();
      Associate(Pow2(8 * |s[1..]|), b as int);
    }
  }

  /** Two concatenations with first parts of one length. */
  lemma SameParts(a: seq<byte>, b: seq<byte>, a': seq<byte>, b': seq<byte>)
    requires |a| == |a'| && a + b == a' + b'
    ensures a == a' && b == b'
  {
    assert a == (a + b)[..|a|] && b == (a + b)[|a|..];
    assert a' == (a' + b')[..|a|] && b' == (a' + b')[|a|..];
  }

  lemma Next(s: seq<byte>, i: nat)
    requires i < |s|
    ensures LittleEndian(s[i..]) == s[i] as int + 0x100 * LittleEndian(s[i + 1..])
  {
    assert s[i..][1..] == s[i + 1..];
  }

  lemma Next4(s: seq<byte>, i: nat)
    requires i + 4 <= |s|
    ensures LittleEndian(s[i..]) == s[i] as int + 0x100 * (s[i + 1] as int) + 0x1_0000 * (s[i + 2] as int)
                                    + 0x100_0000 * (s[i + 3] as int) + 0x1_0000_0000 * LittleEndian(s[i + 4..])
  {
    hide LittleEndian;
    Next(s, i);
    Next(s, i + 1);
    Next(s, i + 2);
    Next(s, i + 3);
  }

  lemma {:induction false} ByteUpdate(s: seq<byte>, i: nat, v: byte)
    requires i < |s|
    ensures LittleEndian(s[i := v]) == LittleEndian(s) + Pow2(8 * i) * (v as int - s[i] as int)
  {
    var t := s[i := v];
    if i == 0 {
      assert t[1..] == s[1..];
    } else {
      assert t[1..] == s[1..][i - 1 := v];
      ByteUpdate(s[1..], i - 1, v);
      Pow2Add(8, 8 * (i - 1));
      Powers();
      Associate(Pow2(8 * (i - 1)), v as int - s[i] as int);
    }
  }

  lemma Associate(p: int, x: int)
    ensures 0x100 * (p * x) == (0x100 * p) * x
  {}

  /** Strings of equal length and equal value are equal. */
  lemma {:induction false} LittleEndianInjective(s: seq<byte>, t: seq<byte>)
    requires |s| == |t| && LittleEndian(s) == LittleEndian(t)
    ensures s == t
  {
    if s != [] {
      assert s[0] == t[0] && LittleEndian(s[1..]) == LittleEndian(t[1..]);
      LittleEndianInjective(s[1..], t[1..]);
      assert s == [s[0]] + s[1..] && t == [t[0]] + t[1..];
    }
  }

  lemma {:induction false} ZeroBytes(s: seq<byte>)
    ensures LittleEndian(s) == 0 <==> forall j :: 0 <= j < |s| ==> s[j] == 0
  {
    if s != [] {
      ZeroBytes(s[1..]);
      assert forall j :: 0 <= j < |s[1..]| ==> s[1..][j] == s[j + 1];
      assert LittleEndian(s) == 0 <==> s[0] == 0 && LittleEndian(s[1..]) == 0;
      if forall j :: 0 <= j < |s[1..]| ==> s[1..][j] == 0 {
        forall j | 0 < j < |s| ensures s[j] == s[1..][j - 1] {}
      }
    }
  }

  /** x | y */
  function BitOr(x: nat, y: nat): nat
    decreases x + y
  {
    if x == 0 && y == 0 then 0
    else (if x % 2 == 1 || y % 2 == 1 then 1 else 0) + 2 * BitOr(x / 2, y / 2)
  }

  /** x & y */
  function BitAnd(x: nat, y: nat): nat
    decreases x
  {
    if x == 0 then 0
    else (if x % 2 == 1 && y % 2 == 1 then 1 else 0) + 2 * BitAnd(x / 2, y / 2)
  }

  /** Or of numbers with disjoint bits is addition. */
  lemma {:induction false} OrDisjoint(x: nat, y: nat, k: nat)
    requires x < Pow2(k)
    ensures BitOr(x, y * Pow2(k)) == x + y * Pow2(k)
    decreases k, y
  {
    if k == 0 {
      OrZero(y);
    } else {
      var z := y * Pow2(k);
      assert z == 2 * (y * Pow2(k - 1));
      OrDisjoint(x / 2, y, k - 1);
    }
  }

  lemma {:induction false} OrZero(y: nat)
    ensures BitOr(0, y) == y
  {
    if y > 0 { OrZero(y / 2); }
  }

  lemma OrIsZero(x: nat, y: nat)
    ensures BitOr(x, y) == 0 <==> x == 0 && y == 0
    decreases x + y
  {
    if x != 0 || y != 0 { OrIsZero(x / 2, y / 2); }
  }

  /** And with a mask of k ones is the remainder modulo 2^k. */
  lemma {:induction false} AndMask(k: nat, y: nat)
    ensures BitAnd(Pow2(k) - 1, y) == y % Pow2(k)
  {
    if k > 0 {
      var m := Pow2(k) - 1;
      assert m % 2 == 1 && m / 2 == Pow2(k - 1) - 1;
      AndMask(k - 1, y / 2);
      HalfMod(y, Pow2(k - 1));
    }
  }

  /** And with a mask whose bits from k on are set clears the low k bits. */
  lemma {:induction false} AndHighMask(n: nat, k: nat, y: nat)
    requires k <= n && y < Pow2(n) && Pow2(k) <= Pow2(n)
    ensures BitAnd(Pow2(n) - Pow2(k), y) == y - y % Pow2(k)
  {
    hide BitAnd;
    if k == 0 {
      AndMask(n, y);
      SmallMod(y, Pow2(n));
    } else {
      AndHighMask(n - 1, k - 1, y / 2);
      AndEven(Pow2(n - 1) - Pow2(k - 1), y);
      ClearedHalf(y, Pow2(k - 1));
    }
  }

  lemma SmallMod(y: nat, m: nat)
    requires y < m
    ensures y % m == y && y % 1 == 0
  {}

  lemma ClearedHalf(y: nat, q: nat)
    requires q > 0
    ensures 2 * (y / 2 - y / 2 % q) == y - y % (2 * q)
  {
    HalfMod(y, q);
  }

  lemma HalfMod(y: nat, p: nat)
    requires p > 0
    ensures y % (2 * p) == y % 2 + 2 * ((y / 2) % p)
  {
    var q, r := (y / 2) / p, (y / 2) % p;
    assert y == (2 * p) * q + (y % 2 + 2 * r) by {
      assert y == 2 * (y / 2) + y % 2;
      assert y / 2 == p * q + r;
    }
    ModUnique(y, 2 * p, q, y % 2 + 2 * r);
  }

  lemma ModUnique(x: int, d: int, q: int, r: int)
    requires 0 <= r < d && x == d * q + r
    ensures x / d == q && x % d == r
  {
    var q', r' := x / d, x % d;
    assert x == d * q' + r' && 0 <= r' < d;
    assert d * (q - q') == r' - r;
    if q - q' >= 1 { Monotone(d, 1, q - q'); assert false; }
    if q - q' <= -1 { Monotone(d, q - q', -1); assert false; }
  }

  lemma Monotone(d: int, x: int, y: int)
    requires 0 <= d && x <= y
    ensures d * x <= d * y
  {}

  /** x ^ y */
  function BitXor(x: nat, y: nat): nat
    decreases x + y
  {
    if x == 0 && y == 0 then 0
    else (if x % 2 != y % 2 then 1 else 0) + 2 * BitXor(x / 2, y / 2)
  }

  lemma {:induction false} XorTwice(x: nat, y: nat)
    ensures BitXor(x, BitXor(x, y)) == y
    decreases x + y
  {
    if x != 0 || y != 0 {
      XorTwice(x / 2, y / 2);
      var z := BitXor(x, y);
      assert z % 2 == (if x % 2 != y % 2 then 1 else 0) && z / 2 == BitXor(x / 2, y / 2);
    } else {
      assert BitXor(0, 0) == 0;
    }
  }

  lemma {:induction false} XorZero(x: nat)
    ensures BitXor(x, 0) == x
  {
    if x != 0 { XorZero(x / 2); }
  }

  lemma {:induction false} XorBelow(x: nat, y: nat, k: nat)
    requires x < Pow2(k) && y < Pow2(k)
    ensures BitXor(x, y) < Pow2(k)
  {
    if k > 0 { XorBelow(x / 2, y / 2, k - 1); }
  }

  lemma {:induction false} XorEqual(x: nat, y: nat)
    ensures BitXor(x, y) == 0 <==> x == y
    decreases x + y
  {
    if x != 0 || y != 0 { XorEqual(x / 2, y / 2); }
  }

  /** Exclusive or of numbers with disjoint bits is addition. */
  lemma {:induction false} XorDisjoint(x: nat, y: nat, k: nat)
    requires x < Pow2(k)
    ensures BitXor(x, y * Pow2(k)) == x + y * Pow2(k)
    decreases k, y
  {
    if k == 0 {
      ZeroXor(y);
    } else {
      hide BitXor;
      var z := y * Pow2(k - 1);
      assert y * Pow2(k) == 2 * z;
      XorDisjoint(x / 2, y, k - 1);
      XorEven(x, z);
    }
  }

  lemma XorEven(x: nat, z: nat)
    ensures BitXor(x, 2 * z) == x % 2 + 2 * BitXor(x / 2, z)
  {}

  lemma AndEven(m: nat, x: nat)
    ensures BitAnd(2 * m, x) == 2 * BitAnd(m, x / 2)
  {}

  lemma {:induction false} ZeroXor(y: nat)
    ensures BitXor(0, y) == y
  {
    if y > 0 { ZeroXor(y / 2); }
  }

  /** x >> r */
  function Shr(x: nat, r: nat): nat {
    if r == 0 then x else Shr(x / 2, r - 1)
  }

  lemma {:induction false} ShrShr(x: nat, r: nat, q: nat)
    ensures Shr(Shr(x, r), q) == Shr(x, r + q)
  {
    if r > 0 { ShrShr(x / 2, r - 1, q); }
  }

  /** A multiple of 2^k is shifted on its own. */
  lemma {:induction false} ShrAdd(x: nat, y: nat, k: nat, r: nat)
    requires r <= k
    ensures Shr(x + Pow2(k) * y, r) == Shr(x, r) + Pow2(k - r) * y
  {
    if r > 0 {
      hide Pow2;
      var z := Pow2(k - 1) * y;
      DoublePower(k, y);
      HalfSum(x, z);
      ShrAdd(x / 2, y, k - 1, r - 1);
    } else {
      hide Pow2;
    }
  }

  lemma DoublePower(k: nat, y: nat)
    requires k > 0
    ensures Pow2(k) * y == 2 * (Pow2(k - 1) * y)
  {}

  lemma HalfSum(x: nat, z: int)
    ensures (x + 2 * z) / 2 == x / 2 + z
  {}

  /** load_3 of fe.c and sc.c: in[0] | in[1] << 8 | in[2] << 16. */
  function Load3(s: seq<byte>, i: nat): nat
    requires i + 3 <= |s|
  {
    BitOr(BitOr(s[i] as int, (s[i + 1] as int) * 0x100), (s[i + 2] as int) * 0x10000)
  }

  /** load_4 of fe.c and sc.c. */
  function Load4(s: seq<byte>, i: nat): nat
    requires i + 4 <= |s|
  {
    BitOr(Load3(s, i), (s[i + 3] as int) * 0x1000000)
  }

  lemma Load3Value(s: seq<byte>, i: nat)
    requires i + 3 <= |s|
    ensures Load3(s, i) == s[i] as int + 0x100 * (s[i + 1] as int) + 0x10000 * (s[i + 2] as int)
  {
    Powers();
    OrDisjoint(s[i] as int, s[i + 1] as int, 8);
    OrDisjoint(s[i] as int + 0x100 * (s[i + 1] as int), s[i + 2] as int, 16);
  }

  lemma Load4Value(s: seq<byte>, i: nat)
    requires i + 4 <= |s|
    ensures Load4(s, i) == s[i] as int + 0x100 * (s[i + 1] as int) + 0x10000 * (s[i + 2] as int)
            + 0x1000000 * (s[i + 3] as int)
  {
    Powers();
    Load3Value(s, i);
    OrDisjoint(Load3(s, i), s[i + 3] as int, 24);
  }

  lemma Powers()
    ensures Pow2(8) == 0x100 && Pow2(16) == 0x1_0000 && Pow2(24) == 0x100_0000
  {
    Pow2Add(8, 8);
    Pow2Add(16, 8);
  }

  /** A cast to unsigned char. */
  function Byte(x: int): byte { x % 256 }

  lemma ByteOf(x: int, q: int, r: int)
    requires x == 256 * q + r && 0 <= r < 256
    ensures Byte(x) == r
  {}

  lemma SmallByte(x: int)
    requires 0 <= x < 256
    ensures Byte(x) == x
  {}

  /** A limb is its low part below k, two whole bytes, and what lies above them. */
  lemma SplitLimb(h: nat, k: nat)
    requires k > 0
    ensures h == h % k + k * Byte(h / k) as int + (0x100 * k) * Byte(h / (0x100 * k)) as int
                 + (0x10000 * k) * (h / (0x10000 * k))
  {
    hide *;
    DivDiv(h, k, 0x100);
    DivDiv(h, k, 0x10000);
    var a := h / k;
    TwoBytes(a);
    Euclid(h, k);
    Distribute(k, Byte(a) as int, 0x100 * Byte(a / 0x100) as int, 0x10000 * (a / 0x10000));
  }

  lemma TwoBytes(a: nat)
    ensures a == Byte(a) as int + 0x100 * Byte(a / 0x100) as int + 0x10000 * (a / 0x10000)
  {}

  lemma Distribute(k: int, x: int, y: int, z: int)
    ensures k * (x + y + z) == k * x + k * y + k * z
  {}

  lemma DivDiv(h: nat, k: nat, m: nat)
    requires k > 0 && m > 0
    ensures k * m > 0
    ensures h / (m * k) == (h / k) / m
  {
    var a := h / k;
    var b, c := a / m, a % m;
    assert h == (m * k) * b + (k * c + h % k) by {
      assert h == k * a + h % k;
      assert a == m * b + c;
    }
    assert k * c + h % k < m * k by {
      Monotone(k, c, m - 1);
    }
    ModUnique(h, m * k, b, k * c + h % k);
  }

  /** A byte made of x in its low bits and the low bits of y above them. */
  lemma JoinByte(x: nat, y: nat, k: nat, m: nat, n: nat)
    requires m == Pow2(k) && m * n == 256 && x < m && n > 0
    ensures Byte(BitOr(x, y * m)) as int == x + m * (y % n)
  {
    hide *;
    OrDisjoint(x, y, k);
    Euclid(y, n);
    JoinSum(x, y, m, n, y / n, y % n);
    ByteOf(BitOr(x, y * m), y / n, x + m * (y % n));
  }

  lemma Euclid(y: nat, n: nat)
    requires n > 0
    ensures y == n * (y / n) + y % n && 0 <= y % n < n && 0 <= y / n
  {}

  lemma JoinSum(x: nat, y: nat, m: nat, n: nat, q: nat, r: nat)
    requires m * n == 256 && x < m && r < n && y == n * q + r
    ensures x + y * m == 256 * q + (x + m * r)
    ensures x + m * r < 256
  {
    calc {
      y * m;
      m * (n * q) + m * r;
      (m * n) * q + m * r;
    }
    Monotone(m, r, n - 1);
  }

  lemma SmallPowers()
    ensures Pow2(1) == 2 && Pow2(2) == 4 && Pow2(3) == 8 && Pow2(4) == 16 && Pow2(5) == 32 && Pow2(6) == 64
  {}

  lemma Pow2of7()
    ensures Pow2(0) == 1 && Pow2(7) == 128
  {
    SmallPowers();
  }

  lemma Pow2of32()
    ensures Pow2(32) == 0x1_0000_0000
  {
    Powers();
    Pow2Add(16, 16);
  }
}
