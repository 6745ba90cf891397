/** The signed radix-16 recoding of ge_scalarmult_base (src/crypto/ed25519/ge.c). */
module Radix16 {
  import opened Words
  import opened Bytes
  import opened Slide

  /** e[0] + 16 e[1] + 256 e[2] + ... */
  function Hex(e: seq<i8>): int {
    if e == [] then 0 else e[0] as int + 16 * Hex(e[1..])
  }

  /** The digits with index 2 k + p, weighted 256^k. */
  function Part(e: seq<i8>, p: nat): int
    requires p < 2
  {
    if |e| < 2 then 0 else e[p] as int + 256 * Part(e[2..], p)
  }

  function Power256(k: nat): int {
    if k == 0 then 1 else 256 * Power256(k - 1)
  }

  lemma {:induction false} HexParts(e: seq<i8>)
    requires |e| % 2 == 0
    ensures Hex(e) == Part(e, 0) + 16 * Part(e, 1)
  {
    if e != [] {
      HexParts(e[2..]);
      assert e[1..][1..] == e[2..];
      assert Hex(e) == e[0] as int + 16 * (e[1] as int + 16 * Hex(e[2..]));
    }
  }

  lemma {:induction false} NextPart(e: seq<i8>, p: nat, k: nat)
    requires p < 2 && 2 * k + 2 <= |e|
    ensures Part(e[..2 * k + 2], p) == Part(e[..2 * k], p) + Power256(k) * e[2 * k + p] as int
  {
    if k == 0 {
      assert e[..2][2..] == [];
    } else {
      NextPart(e[2..], p, k - 1);
      assert e[..2 * k + 2][2..] == e[2..][..2 * k] && e[..2 * k][2..] == e[2..][..2 * k - 2];
      assert 256 * (Power256(k - 1) * e[2 * k + p] as int) == Power256(k) * e[2 * k + p] as int;
    }
  }

  lemma {:induction false} HexUpdate(e: seq<i8>, i: nat, v: i8, w: i8)
    requires i + 1 < |e| && v as int + 16 * w as int == e[i] as int + 16 * e[i + 1] as int
    ensures Hex(e[i := v][i + 1 := w]) == Hex(e)
  {
    var t := e[i := v][i + 1 := w];
    if i == 0 {
      assert t[1..][1..] == e[1..][1..];
      assert Hex(e) == e[0] as int + 16 * (e[1] as int + 16 * Hex(e[1..][1..]));
      assert Hex(t) == t[0] as int + 16 * (t[1] as int + 16 * Hex(t[1..][1..]));
    } else {
      assert t[1..] == e[1..][i - 1 := v][i := w];
      HexUpdate(e[1..], i - 1, v, w);
    }
  }

  lemma {:induction false} NibblesValue(a: seq<byte>, e: seq<i8>)
    requires |e| == 2 * |a|
    requires forall i :: 0 <= i < |a| ==> e[2 * i] as int == a[i] as int % 16 && e[2 * i + 1] as int == a[i] as int / 16
    ensures Hex(e) == LittleEndian(a)
  {
    if a != [] {
      forall i | 0 <= i < |a[1..]|
        ensures e[2..][2 * i] as int == a[1..][i] as int % 16 && e[2..][2 * i + 1] as int == a[1..][i] as int / 16
      {
        assert e[2..][2 * i] == e[2 * (i + 1)] && e[2..][2 * i + 1] == e[2 * (i + 1) + 1];
      }
      NibblesValue(a[1..], e[2..]);
      assert e[1..][1..] == e[2..];
      assert Hex(e) == e[0] as int + 16 * (e[1] as int + 16 * Hex(e[2..]));
      assert e[2 * 0] as int == a[0] as int % 16 && e[2 * 0 + 1] as int == a[0] as int / 16;
    }
  }

  /** e[2 i] = a[i] & 15, e[2 i + 1] = (a[i] >> 4) & 15. */
  method Nibbles(a: seq<byte>) returns (e: array<i8>)
    requires |a| == 32
    ensures fresh(e) && e.Length == 64 && Hex(e[..]) == LittleEndian(a)
    ensures forall i :: 0 <= i < 64 ==> 0 <= e[i] < 16
    ensures a[31] <= 127 ==> e[63] < 8
  {
    hide Hex, LittleEndian, BitAnd, Pow2;
    e := new i8[64];
    for i := 0 to 32
      invariant forall j :: 0 <= j < i ==>
                e[2 * j] as int == a[j] as int % 16 && e[2 * j + 1] as int == a[j] as int / 16
      invariant forall j :: 0 <= j < 2 * i ==> 0 <= e[j] < 16
    {
      SmallPowers();
      AndMask(4, a[i] as int);
      AndMask(4, a[i] as int / 16);
      e[2 * i] := BitAnd(15, a[i] as int) as i8;
      e[2 * i + 1] := BitAnd(15, a[i] as int / 16) as i8;
    }
    NibblesValue(a, e[..]);
    assert e[2 * 31 + 1] as int == a[31] as int / 16;
  }

  /** The digits of a scalar below 2^255 in -8..8. */
  method Recode(a: seq<byte>) returns (e: array<i8>)
    requires |a| == 32 && a[31] <= 127
    ensures fresh(e) && e.Length == 64 && Hex(e[..]) == LittleEndian(a)
    ensures forall i :: 0 <= i < 64 ==> -8 <= e[i] <= 8
  {
    hide Hex, LittleEndian;
    e := Nibbles(a);
    var carry: i8 := 0;
    ghost var s := e[..];
    for i := 0 to 63
      invariant |s| == 64 && Hex(s) == LittleEndian(a)
      invariant 0 <= carry <= 1
      invariant forall j :: i <= j < 64 ==> 0 <= e[j] < 16
      invariant e[63] < 8
      invariant s == e[..][i := e[i] + carry]
      invariant forall j :: 0 <= j < i ==> -8 <= e[j] < 8
    {
      e[i] := e[i] + carry;
      carry := (e[i] + 8) / 16;
      e[i] := e[i] - carry * 16;
      HexUpdate(s, i, e[i], e[i + 1] + carry);
      s := s[i := e[i]][i + 1 := e[i + 1] + carry];
    }
    e[63] := e[63] + carry;
    assert e[..] == s;
  }
}
