/** sc_reduce and sc_muladd of src/crypto/ed25519/sc.c. */
module ScOps {
  import opened Words
  import opened Bytes
  import opened Sc
  import opened ScBytes
  import opened ScProduct

  /** Reduce a 64-byte string in place: its first half becomes the string modulo L. */
  method ScReduce(s: array<byte>)
    requires s.Length == 64
    modifies s
    ensures LittleEndian(s[..32]) == LittleEndian(old(s[..])) % L
    ensures s[32..] == old(s[32..])
  {
    hide *;
    var r := ScReduced(s[..]);
    forall k | 0 <= k < 32 { s[k] := r[k]; }
    assert s[..32] == r;
  }

  method ScReduced(s: seq<byte>) returns (r: seq<byte>)
    requires |s| == 64
    ensures |r| == 32 && LittleEndian(r) == LittleEndian(s) % L
  {
    hide Value, LittleEndian, Load24, Store;
    var t := Load24(s);
    Load24Value(s);
    var u := Reduce(t);
    r := Store(u);
    StoreValue(u);
  }

  /** Twelve limbs as Load12 makes them. */
  predicate Limbs12(a: seq<i64>) {
    |a| == 12 && (forall k :: 0 <= k < 11 ==> 0 <= a[k] < 0x200000) && 0 <= a[11] < 0x200_0000
  }

  /** a[i] * b[j] in int64_t. */
  function Prod(a: seq<i64>, b: seq<i64>, i: nat, j: nat): (r: i64)
    requires Limbs12(a) && Limbs12(b) && i < 12 && j < 12
    ensures r as int == Term(a, b, i, j)
    ensures 0 <= r < 0x4_0000_0000_0000
    ensures i < 11 || j < 11 ==> r < 0x4000_0000_0000
    ensures i < 11 && j < 11 ==> r < 0x400_0000_0000
  {
    ProdBound(a[i] as int, b[j] as int, if i < 11 then 0x200000 else 0x200_0000,
              if j < 11 then 0x200000 else 0x200_0000);
    a[i] * b[j]
  }

  lemma ProdBound(x: int, y: int, m: int, n: int)
    requires 0 <= x < m && 0 <= y < n
    ensures 0 <= x * y < m * n
  {
    Monotone(y, x, m - 1);
    Monotone(m - 1, y, n - 1);
  }

  /** Columns 0 to 7 of a * b. */
  method Columns0(a: seq<i64>, b: seq<i64>) returns (s: seq<i64>)
    requires Limbs12(a) && Limbs12(b)
    ensures |s| == 8 && forall k :: 0 <= k < 8 ==> 0 <= s[k] < 0x4_0000_8000_0000
    ensures forall k :: 0 <= k < 8 ==> s[k] as int == Column(a, b, 0, k)
  {
    hide Column, Term;
    ColumnOf12(a, b, 0);
    ColumnOf12(a, b, 1);
    ColumnOf12(a, b, 2);
    ColumnOf12(a, b, 3);
    ColumnOf12(a, b, 4);
    ColumnOf12(a, b, 5);
    ColumnOf12(a, b, 6);
    ColumnOf12(a, b, 7);
    var s0 := Prod(a, b, 0, 0);
    var s1 := Prod(a, b, 0, 1) + Prod(a, b, 1, 0);
    var s2 := Prod(a, b, 0, 2) + Prod(a, b, 1, 1) + Prod(a, b, 2, 0);
    var s3 := Prod(a, b, 0, 3) + Prod(a, b, 1, 2) + Prod(a, b, 2, 1) + Prod(a, b, 3, 0);
    var s4 := Prod(a, b, 0, 4) + Prod(a, b, 1, 3) + Prod(a, b, 2, 2) + Prod(a, b, 3, 1) + Prod(a, b, 4, 0);
    var s5 := Prod(a, b, 0, 5) + Prod(a, b, 1, 4) + Prod(a, b, 2, 3) + Prod(a, b, 3, 2) + Prod(a, b, 4, 1) +
              Prod(a, b, 5, 0);
    var s6 := Prod(a, b, 0, 6) + Prod(a, b, 1, 5) + Prod(a, b, 2, 4) + Prod(a, b, 3, 3) + Prod(a, b, 4, 2) +
              Prod(a, b, 5, 1) + Prod(a, b, 6, 0);
    var s7 := Prod(a, b, 0, 7) + Prod(a, b, 1, 6) + Prod(a, b, 2, 5) + Prod(a, b, 3, 4) + Prod(a, b, 4, 3) +
              Prod(a, b, 5, 2) + Prod(a, b, 6, 1) + Prod(a, b, 7, 0);
    s := [s0, s1, s2, s3, s4, s5, s6, s7];
  }

  /** Columns 8 to 11 of a * b. */
  method Columns8(a: seq<i64>, b: seq<i64>) returns (s: seq<i64>)
    requires Limbs12(a) && Limbs12(b)
    ensures |s| == 4 && forall k :: 0 <= k < 4 ==> 0 <= s[k] < 0x4_0000_8000_0000
    ensures forall k :: 0 <= k < 4 ==> s[k] as int == Column(a, b, 0, k + 8)
  {
    hide Column, Term;
    ColumnOf12(a, b, 8);
    ColumnOf12(a, b, 9);
    ColumnOf12(a, b, 10);
    ColumnOf12(a, b, 11);
    var s8 := Prod(a, b, 0, 8) + Prod(a, b, 1, 7) + Prod(a, b, 2, 6) + Prod(a, b, 3, 5) + Prod(a, b, 4, 4) +
              Prod(a, b, 5, 3) + Prod(a, b, 6, 2) + Prod(a, b, 7, 1) + Prod(a, b, 8, 0);
    var s9 := Prod(a, b, 0, 9) + Prod(a, b, 1, 8) + Prod(a, b, 2, 7) + Prod(a, b, 3, 6) + Prod(a, b, 4, 5) +
              Prod(a, b, 5, 4) + Prod(a, b, 6, 3) + Prod(a, b, 7, 2) + Prod(a, b, 8, 1) + Prod(a, b, 9, 0);
    var s10 := Prod(a, b, 0, 10) + Prod(a, b, 1, 9) + Prod(a, b, 2, 8) + Prod(a, b, 3, 7) + Prod(a, b, 4, 6) +
               Prod(a, b, 5, 5) + Prod(a, b, 6, 4) + Prod(a, b, 7, 3) + Prod(a, b, 8, 2) + Prod(a, b, 9, 1) +
               Prod(a, b, 10, 0);
    var s11 := Prod(a, b, 0, 11) + Prod(a, b, 1, 10) + Prod(a, b, 2, 9) + Prod(a, b, 3, 8) + Prod(a, b, 4, 7) +
               Prod(a, b, 5, 6) + Prod(a, b, 6, 5) + Prod(a, b, 7, 4) + Prod(a, b, 8, 3) + Prod(a, b, 9, 2) +
               Prod(a, b, 10, 1) + Prod(a, b, 11, 0);
    s := [s8, s9, s10, s11];
  }

  /** Columns 12 to 15 of a * b. */
  method Columns12(a: seq<i64>, b: seq<i64>) returns (s: seq<i64>)
    requires Limbs12(a) && Limbs12(b)
    ensures |s| == 4 && forall k :: 0 <= k < 4 ==> 0 <= s[k] < 0x4_0000_8000_0000
    ensures forall k :: 0 <= k < 4 ==> s[k] as int == Column(a, b, 0, k + 12)
  {
    hide Column, Term;
    ColumnOf12(a, b, 12);
    ColumnOf12(a, b, 13);
    ColumnOf12(a, b, 14);
    ColumnOf12(a, b, 15);
    var s12 := Prod(a, b, 1, 11) + Prod(a, b, 2, 10) + Prod(a, b, 3, 9) + Prod(a, b, 4, 8) + Prod(a, b, 5, 7) +
               Prod(a, b, 6, 6) + Prod(a, b, 7, 5) + Prod(a, b, 8, 4) + Prod(a, b, 9, 3) + Prod(a, b, 10, 2) +
               Prod(a, b, 11, 1);
    var s13 := Prod(a, b, 2, 11) + Prod(a, b, 3, 10) + Prod(a, b, 4, 9) + Prod(a, b, 5, 8) + Prod(a, b, 6, 7) +
               Prod(a, b, 7, 6) + Prod(a, b, 8, 5) + Prod(a, b, 9, 4) + Prod(a, b, 10, 3) + Prod(a, b, 11, 2);
    var s14 := Prod(a, b, 3, 11) + Prod(a, b, 4, 10) + Prod(a, b, 5, 9) + Prod(a, b, 6, 8) + Prod(a, b, 7, 7) +
               Prod(a, b, 8, 6) + Prod(a, b, 9, 5) + Prod(a, b, 10, 4) + Prod(a, b, 11, 3);
    var s15 := Prod(a, b, 4, 11) + Prod(a, b, 5, 10) + Prod(a, b, 6, 9) + Prod(a, b, 7, 8) + Prod(a, b, 8, 7) +
               Prod(a, b, 9, 6) + Prod(a, b, 10, 5) + Prod(a, b, 11, 4);
    s := [s12, s13, s14, s15];
  }

  /** Columns 16 to 22 of a * b. */
  method Columns16(a: seq<i64>, b: seq<i64>) returns (s: seq<i64>)
    requires Limbs12(a) && Limbs12(b)
    ensures |s| == 7 && forall k :: 0 <= k < 7 ==> 0 <= s[k] < 0x4_0000_8000_0000
    ensures forall k :: 0 <= k < 7 ==> s[k] as int == Column(a, b, 0, k + 16)
  {
    hide Column, Term;
    ColumnOf12(a, b, 16);
    ColumnOf12(a, b, 17);
    ColumnOf12(a, b, 18);
    ColumnOf12(a, b, 19);
    ColumnOf12(a, b, 20);
    ColumnOf12(a, b, 21);
    ColumnOf12(a, b, 22);
    var s16 := Prod(a, b, 5, 11) + Prod(a, b, 6, 10) + Prod(a, b, 7, 9) + Prod(a, b, 8, 8) + Prod(a, b, 9, 7) +
               Prod(a, b, 10, 6) + Prod(a, b, 11, 5);
    var s17 := Prod(a, b, 6, 11) + Prod(a, b, 7, 10) + Prod(a, b, 8, 9) + Prod(a, b, 9, 8) + Prod(a, b, 10, 7) +
               Prod(a, b, 11, 6);
    var s18 := Prod(a, b, 7, 11) + Prod(a, b, 8, 10) + Prod(a, b, 9, 9) + Prod(a, b, 10, 8) + Prod(a, b, 11, 7);
    var s19 := Prod(a, b, 8, 11) + Prod(a, b, 9, 10) + Prod(a, b, 10, 9) + Prod(a, b, 11, 8);
    var s20 := Prod(a, b, 9, 11) + Prod(a, b, 10, 10) + Prod(a, b, 11, 9);
    var s21 := Prod(a, b, 10, 11) + Prod(a, b, 11, 10);
    var s22 := Prod(a, b, 11, 11);
    s := [s16, s17, s18, s19, s20, s21, s22];
  }

  /** The columns of a * b + c, and s23 = 0. */
  method MulAddColumns(a: seq<i64>, b: seq<i64>, c: seq<i64>) returns (s: seq<i64>)
    requires Limbs12(a) && Limbs12(b) && Limbs12(c)
    ensures |s| == 24 && Within(s, 0, 24, 0x4_0001_0000_0000) && s[23] == 0
    ensures Value(s) == Value(a) * Value(b) + Value(c)
  {
    hide Column, Value;
    var p := Columns0(a, b);
    var q := Columns8(a, b);
    var u := Columns12(a, b);
    var v := Columns16(a, b);
    ghost var ab := p + q + u + v;
    ProductValue(a, b, ab);
    s := [c[0] + p[0], c[1] + p[1], c[2] + p[2], c[3] + p[3], c[4] + p[4], c[5] + p[5], c[6] + p[6], c[7] + p[7],
          c[8] + q[0], c[9] + q[1], c[10] + q[2], c[11] + q[3]] + u + v + [0];
    AddValue(ab + [0], c, s);
    AppendZero(ab);
  }

  lemma {:induction false} AddValue(p: seq<i64>, c: seq<i64>, s: seq<i64>)
    requires |c| <= |p| == |s|
    requires forall k :: 0 <= k < |c| ==> s[k] as int == c[k] as int + p[k] as int
    requires forall k :: |c| <= k < |s| ==> s[k] == p[k]
    ensures Value(s) == Value(p) + Value(c)
  {
    if c == [] {
      assert s == p;
    } else {
      AddValue(p[1..], c[1..], s[1..]);
    }
  }

  lemma {:induction false} AppendZero(p: seq<i64>)
    ensures Value(p + [0]) == Value(p)
  {
    if p != [] {
      assert (p + [0])[1..] == p[1..] + [0];
      AppendZero(p[1..]);
    }
  }

  /** (a b + c) modulo L. */
  method ScMulAdd(a: seq<byte>, b: seq<byte>, c: seq<byte>) returns (r: seq<byte>)
    requires |a| == |b| == |c| == 32
    ensures |r| == 32 && LittleEndian(r) == (LittleEndian(a) * LittleEndian(b) + LittleEndian(c)) % L
  {
    hide Value, LittleEndian, Load12, Store;
    Load12Value(a);
    Load12Value(b);
    Load12Value(c);
    var s := MulAddColumns(Load12(a), Load12(b), Load12(c));
    s := RoundPass(s, 0, 24, 0x2000_1000);
    s := RoundPass(s, 1, 23, 0x2000_1000);
    var u := Reduce(s);
    r := Store(u);
    StoreValue(u);
  }

  /** The top three bits of a reduced scalar are zero. */
  lemma TopByte(r: seq<byte>)
    requires |r| == 32 && LittleEndian(r) < L
    ensures r[31] < 32
  {
    hide LittleEndian, Shr;
    DropBytes(r, 31);
    Next(r, 31);
    assert r[32..] == [];
    EmptyValue();
    TopBits(LittleEndian(r));
  }

  lemma TopBits(x: nat)
    requires x < L
    ensures Shr(x, 248) < 32
  {
    hide Shr, Pow2;
    Pow2of253();
    ShrBelow(x, 248, 5);
    SmallPowers();
  }

  lemma Pow2of253()
    ensures Pow2(253) == 2 * TWO252
  {
    hide Pow2;
    SmallPowers();
    Powers21();
    Pow2Add(21, 21);
    Pow2Add(42, 42);
    Pow2Add(84, 84);
    Pow2Add(168, 84);
    Pow2Add(252, 1);
  }
}
