/** Multiplication in radix 2^21: the columns of a product of limb strings. */
module ScProduct {
  import opened Words
  import opened Bytes
  import opened Sc

  /** a[i] b[j], or 0 where there is no such limb. */
  function Term(a: seq<i64>, b: seq<i64>, i: int, j: int): int {
    if 0 <= i < |a| && 0 <= j < |b| then a[i] as int * b[j] as int else 0
  }

  /** Column k of the rows from i on: the sum of a[i'] b[k - i'] over i' >= i. */
  function Column(a: seq<i64>, b: seq<i64>, i: nat, k: int): int
    decreases |a| - i
  {
    if i >= |a| then 0 else Term(a, b, i, k - i) + Column(a, b, i + 1, k)
  }

  /** The first n columns of the rows from i on, weighted. */
  function Columns(a: seq<i64>, b: seq<i64>, i: nat, n: nat): int {
    if n == 0 then 0 else Columns(a, b, i, n - 1) + Radix(n - 1) * Column(a, b, i, n - 1)
  }

  /** The first n columns of row i alone. */
  function Row(a: seq<i64>, b: seq<i64>, i: nat, n: nat): int {
    if n == 0 then 0 else Row(a, b, i, n - 1) + Radix(n - 1) * Term(a, b, i, n - 1 - i)
  }

  lemma {:induction false} SplitRow(a: seq<i64>, b: seq<i64>, i: nat, n: nat)
    requires i < |a|
    ensures Columns(a, b, i, n) == Row(a, b, i, n) + Columns(a, b, i + 1, n)
  {
    if n > 0 {
      SplitRow(a, b, i, n - 1);
      Distribute2(Radix(n - 1), Term(a, b, i, n - 1 - i), Column(a, b, i + 1, n - 1));
    }
  }

  lemma Distribute2(r: int, x: int, y: int)
    ensures r * (x + y) == r * x + r * y
  {}

  lemma {:induction false} AppendValue(s: seq<i64>, n: nat)
    requires n < |s|
    ensures Value(s[..n + 1]) == Value(s[..n]) + Radix(n) * s[n] as int
  {
    if n == 0 {
      assert s[..1][1..] == [];
    } else {
      AppendValue(s[1..], n - 1);
      assert s[..n + 1][1..] == s[1..][..n] && s[..n][1..] == s[1..][..n - 1];
      Scale(Radix(n - 1), s[n] as int);
    }
  }

  lemma {:induction false} RadixAdd(i: nat, j: nat)
    ensures Radix(i + j) == Radix(i) * Radix(j)
  {
    if i > 0 {
      RadixAdd(i - 1, j);
      assert Radix(i) * Radix(j) == 0x200000 * (Radix(i - 1) * Radix(j));
    }
  }

  lemma {:induction false} RowValue(a: seq<i64>, b: seq<i64>, i: nat, n: nat)
    requires i < |a| && i <= n
    ensures Row(a, b, i, n) == Radix(i) * (a[i] as int * Value(b[..if n - i < |b| then n - i else |b|]))
  {
    if n == i {
      EmptyRow(a, b, i, n);
      assert b[..0] == [];
    } else {
      RowValue(a, b, i, n - 1);
      var j := n - 1 - i;
      if j < |b| {
        AppendValue(b, j);
        RadixAdd(i, j);
        RowStep(Radix(i), Radix(j), a[i] as int, Value(b[..j]), b[j] as int);
      }
    }
  }

  lemma RowStep(r: int, q: int, x: int, v: int, y: int)
    ensures r * (x * (v + q * y)) == r * (x * v) + (r * q) * (x * y)
  {}

  lemma {:induction false} EmptyRow(a: seq<i64>, b: seq<i64>, i: nat, n: nat)
    requires n <= i
    ensures Row(a, b, i, n) == 0
  {
    if n > 0 { EmptyRow(a, b, i, n - 1); }
  }

  lemma {:induction false} NoColumns(a: seq<i64>, b: seq<i64>, n: nat)
    ensures Columns(a, b, |a|, n) == 0
  {
    if n > 0 { NoColumns(a, b, n - 1); }
  }

  /** The columns of the rows from i on add up to the tail of a times b. */
  lemma {:induction false} ColumnsValue(a: seq<i64>, b: seq<i64>, i: nat, n: nat)
    requires i <= |a| && |a| + |b| <= n + 1 && |b| > 0
    ensures Columns(a, b, i, n) == Radix(i) * (Value(a[i..]) * Value(b))
    decreases |a| - i
  {
    if i == |a| {
      NoColumns(a, b, n);
    } else {
      SplitRow(a, b, i, n);
      RowValue(a, b, i, n);
      assert b[..|b|] == b;
      ColumnsValue(a, b, i + 1, n);
      Step(a, i);
      TailStep(Radix(i), a[i] as int, Value(a[i + 1..]), Value(b));
    }
  }

  lemma TailStep(r: int, x: int, t: int, v: int)
    ensures r * ((x + 0x200000 * t) * v) == r * (x * v) + (0x200000 * r) * (t * v)
  {}

  lemma {:induction false} ValueOfColumns(a: seq<i64>, b: seq<i64>, s: seq<i64>, n: nat)
    requires n <= |s| && forall k :: 0 <= k < n ==> s[k] as int == Column(a, b, 0, k)
    ensures Value(s[..n]) == Columns(a, b, 0, n)
  {
    if n == 0 {
      assert s[..0] == [];
    } else {
      ValueOfColumns(a, b, s, n - 1);
      AppendValue(s, n - 1);
    }
  }

  /** Limbs that are the columns of a product have the product of the values. */
  lemma ProductValue(a: seq<i64>, b: seq<i64>, s: seq<i64>)
    requires |b| > 0 && |a| + |b| <= |s| + 1
    requires forall k :: 0 <= k < |s| ==> s[k] as int == Column(a, b, 0, k)
    ensures Value(s) == Value(a) * Value(b)
  {
    hide Value, Column, Columns;
    ValueOfColumns(a, b, s, |s|);
    ColumnsValue(a, b, 0, |s|);
    assert s[..|s|] == s && a[0..] == a;
    RadixZero();
  }

  lemma RadixZero()
    ensures Radix(0) == 1
  {}

  /** A term that is there only for 0 <= j < 12. */
  function Part(a: seq<i64>, b: seq<i64>, i: nat, j: int): int {
    if 0 <= j < 12 then Term(a, b, i, j) else 0
  }

  lemma ColumnOf12(a: seq<i64>, b: seq<i64>, k: int)
    requires |a| == |b| == 12
    ensures Column(a, b, 0, k) ==
            Part(a, b, 0, k) + Part(a, b, 1, k - 1) + Part(a, b, 2, k - 2) + Part(a, b, 3, k - 3) +
            Part(a, b, 4, k - 4) + Part(a, b, 5, k - 5) + Part(a, b, 6, k - 6) + Part(a, b, 7, k - 7) +
            Part(a, b, 8, k - 8) + Part(a, b, 9, k - 9) + Part(a, b, 10, k - 10) + Part(a, b, 11, k - 11)
  {
    assert forall i: nat, j: int :: Part(a, b, i, j) == Term(a, b, i, j);
    hide Term, Part;
    assert Column(a, b, 12, k) == 0;
    assert Column(a, b, 11, k) == Part(a, b, 11, k - 11) + Column(a, b, 12, k);
    assert Column(a, b, 10, k) == Part(a, b, 10, k - 10) + Column(a, b, 11, k);
    assert Column(a, b, 9, k) == Part(a, b, 9, k - 9) + Column(a, b, 10, k);
    assert Column(a, b, 8, k) == Part(a, b, 8, k - 8) + Column(a, b, 9, k);
    assert Column(a, b, 7, k) == Part(a, b, 7, k - 7) + Column(a, b, 8, k);
    assert Column(a, b, 6, k) == Part(a, b, 6, k - 6) + Column(a, b, 7, k);
    assert Column(a, b, 5, k) == Part(a, b, 5, k - 5) + Column(a, b, 6, k);
    assert Column(a, b, 4, k) == Part(a, b, 4, k - 4) + Column(a, b, 5, k);
    assert Column(a, b, 3, k) == Part(a, b, 3, k - 3) + Column(a, b, 4, k);
    assert Column(a, b, 2, k) == Part(a, b, 2, k - 2) + Column(a, b, 3, k);
    assert Column(a, b, 1, k) == Part(a, b, 1, k - 1) + Column(a, b, 2, k);
    assert Column(a, b, 0, k) == Part(a, b, 0, k) + Column(a, b, 1, k);
  }
}
