/** SHA-512 as FIPS 180-4 defines it: the compression function of section 6.4.2. */
module Sha512Spec {
  import opened Words
  import opened Sha512Constants

  /** Addition modulo 2^64. */
  function Plus(x: bv64, y: bv64): bv64 { x + y }

  function Choose(x: bv64, y: bv64, z: bv64): bv64 { (x & y) ^ (!x & z) }

  function Majority(x: bv64, y: bv64, z: bv64): bv64 { (x & y) ^ (x & z) ^ (y & z) }

  function Sigma0(x: bv64): bv64 { x.RotateRight(28) ^ x.RotateRight(34) ^ x.RotateRight(39) }

  function Sigma1(x: bv64): bv64 { x.RotateRight(14) ^ x.RotateRight(18) ^ x.RotateRight(41) }

  function Gamma0(x: bv64): bv64 { x.RotateRight(1) ^ x.RotateRight(8) ^ (x >> 7) }

  function Gamma1(x: bv64): bv64 { x.RotateRight(19) ^ x.RotateRight(61) ^ (x >> 6) }

  /** Eight bytes, most significant first. */
  function LoadWord(s: seq<byte>, i: nat): bv64
    requires i + 8 <= |s|
  {
    (s[i] as bv64 << 56) | (s[i + 1] as bv64 << 48) | (s[i + 2] as bv64 << 40) | (s[i + 3] as bv64 << 32) |
    (s[i + 4] as bv64 << 24) | (s[i + 5] as bv64 << 16) | (s[i + 6] as bv64 << 8) | (s[i + 7] as bv64)
  }

  function LowByte(x: bv64): byte { (x & 255) as bv8 as int }

  function StoreWord(x: bv64): (s: seq<byte>)
    ensures |s| == 8
  {
    [LowByte(x >> 56), LowByte(x >> 48), LowByte(x >> 40), LowByte(x >> 32),
     LowByte(x >> 24), LowByte(x >> 16), LowByte(x >> 8), LowByte(x)]
  }

  function NextWord(w2: bv64, w7: bv64, w15: bv64, w16: bv64): bv64 {
    Plus(Plus(Plus(Gamma1(w2), w7), Gamma0(w15)), w16)
  }

  /** A number below 2^64 as eight bytes, most significant first. */
  function StoreNumber(n: nat): (s: seq<byte>)
    ensures |s| == 8
  {
    [n / 0x100_0000_0000_0000 % 256, n / 0x1_0000_0000_0000 % 256, n / 0x100_0000_0000 % 256, n / 0x1_0000_0000 % 256,
     n / 0x100_0000 % 256, n / 0x1_0000 % 256, n / 0x100 % 256, n % 256]
  }

  /** W_t */
  function Schedule(block: seq<byte>, t: nat): bv64
    requires |block| == 128
  {
    if t < 16 then LoadWord(block, 8 * t)
    else NextWord(Schedule(block, t - 2), Schedule(block, t - 7), Schedule(block, t - 15), Schedule(block, t - 16))
  }

  /** The working variables. */
  datatype Regs = Regs(a: bv64, b: bv64, c: bv64, d: bv64, e: bv64, f: bv64, g: bv64, h: bv64)

  function T1(r: Regs, k: bv64, w: bv64): bv64 {
    Plus(Plus(Plus(Plus(r.h, Sigma1(r.e)), Choose(r.e, r.f, r.g)), k), w)
  }

  function T2(r: Regs): bv64 { Plus(Sigma0(r.a), Majority(r.a, r.b, r.c)) }

  /** One round: every register moves to the next one. */
  function Round(r: Regs, k: bv64, w: bv64): Regs {
    Regs(Plus(T1(r, k, w), T2(r)), r.a, r.b, r.c, Plus(r.d, T1(r, k, w)), r.e, r.f, r.g)
  }

  function Rounds(r: Regs, block: seq<byte>, t: nat): Regs
    requires |block| == 128 && t <= 80
  {
    if t == 0 then r else Round(Rounds(r, block, t - 1), K(t - 1), Schedule(block, t - 1))
  }

  function Add(r: Regs, s: Regs): Regs {
    Regs(Plus(r.a, s.a), Plus(r.b, s.b), Plus(r.c, s.c), Plus(r.d, s.d),
         Plus(r.e, s.e), Plus(r.f, s.f), Plus(r.g, s.g), Plus(r.h, s.h))
  }

  function CompressBlock(r: Regs, block: seq<byte>): Regs
    requires |block| == 128
  {
    Add(r, Rounds(r, block, 80))
  }

  /** The whole blocks of a message, compressed one after the other. */
  function Chain(r: Regs, m: seq<byte>): Regs
    decreases |m|
  {
    if |m| < 128 then r else Chain(CompressBlock(r, m[..128]), m[128..])
  }

  const Initial: Regs := Regs(
    0x6a09e667_f3bcc908, 0xbb67ae85_84caa73b, 0x3c6ef372_fe94f82b, 0xa54ff53a_5f1d36f1,
    0x510e527f_ade682d1, 0x9b05688c_2b3e6c1f, 0x1f83d9ab_fb41bd6b, 0x5be0cd19_137e2179)

  /** The initial state: the fractions of the square roots of the first eight primes. */
  lemma SquareFractions()
    ensures SquareFraction(PrimeNumber(0), Initial.a) && SquareFraction(PrimeNumber(1), Initial.b)
    ensures SquareFraction(PrimeNumber(2), Initial.c) && SquareFraction(PrimeNumber(3), Initial.d)
    ensures SquareFraction(PrimeNumber(4), Initial.e) && SquareFraction(PrimeNumber(5), Initial.f)
    ensures SquareFraction(PrimeNumber(6), Initial.g) && SquareFraction(PrimeNumber(7), Initial.h)
  {}

  function Zeros(n: nat): (s: seq<byte>)
    ensures |s| == n && forall i :: 0 <= i < n ==> s[i] == 0
  {
    if n == 0 then [] else Zeros(n - 1) + [0]
  }

  const TWO64: nat := 0x1_0000_0000_0000_0000

  /** A number below 2^128 as sixteen bytes, most significant first. */
  function Length128(n: nat): (s: seq<byte>)
    requires n < TWO64 * TWO64
    ensures |s| == 16
  {
    StoreNumber(n / TWO64) + StoreNumber(n % TWO64)
  }

  /** The number of zero bytes after the 0x80 byte. */
  function PadLength(n: nat): (k: nat)
    ensures (n + 1 + k + 16) % 128 == 0 && k < 128
  {
    (111 - n) % 128
  }

  /** Section 5.1.2. */
  function Padded(m: seq<byte>): (p: seq<byte>)
    requires 8 * |m| < TWO64 * TWO64
    ensures |p| % 128 == 0
  {
    m + [0x80] + Zeros(PadLength(|m|)) + Length128(8 * |m|)
  }

  function Digest(r: Regs): (s: seq<byte>)
    ensures |s| == 64
  {
    StoreWord(r.a) + StoreWord(r.b) + StoreWord(r.c) + StoreWord(r.d) +
    StoreWord(r.e) + StoreWord(r.f) + StoreWord(r.g) + StoreWord(r.h)
  }

  function Sha512(m: seq<byte>): (s: seq<byte>)
    requires 8 * |m| < TWO64 * TWO64
    ensures |s| == 64
  {
    Digest(Chain(Initial, Padded(m)))
  }

  lemma {:induction false} ChainBlock(r: Regs, m: seq<byte>, block: seq<byte>)
    requires |m| % 128 == 0 && |block| == 128
    ensures Chain(r, m + block) == CompressBlock(Chain(r, m), block)
    decreases |m|
  {
    hide CompressBlock;
    if m == [] {
      assert m + block == block && block[..128] == block && block[128..] == [];
      assert Chain(CompressBlock(r, block), []) == CompressBlock(r, block);
    } else {
      assert (m + block)[..128] == m[..128] && (m + block)[128..] == m[128..] + block;
      ChainBlock(CompressBlock(r, m[..128]), m[128..], block);
    }
  }

  lemma ZerosJoin(a: nat, b: nat)
    ensures Zeros(a) + Zeros(b) == Zeros(a + b)
  {}

  /** The padding that sha512_final writes: a 64-bit length, modulo 2^64. */
  function WrappedPadded(m: seq<byte>): seq<byte> {
    m + [0x80] + Zeros(PadLength(|m|) + 8) + StoreNumber(8 * |m| % TWO64)
  }

  /** It is the padding of the standard for every message below 2^64 bits. */
  lemma PaddingAgrees(m: seq<byte>)
    requires 8 * |m| < TWO64
    ensures WrappedPadded(m) == Padded(m)
  {
    hide StoreNumber;
    StoreZero();
    ZerosJoin(PadLength(|m|), 8);
    assert 8 * |m| / TWO64 == 0 && 8 * |m| % TWO64 == 8 * |m|;
  }

  lemma StoreZero()
    ensures StoreNumber(0) == Zeros(8)
  {
    assert StoreNumber(0) == [0, 0, 0, 0, 0, 0, 0, 0];
  }
}
