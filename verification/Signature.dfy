/** ed25519_create_privkey, ed25519_compute_pubkey, ed25519_sign and ed25519_verify
    (src/crypto/ed25519/keypair.c, sign.c, verify.c). */
module Signature {
  import opened Words
  import opened Bytes
  import opened Congruence
  import opened FeBytes
  import opened Edwards
  import opened Root
  import opened Ge
  import opened PointCoding
  import opened PointMath
  import opened ScalarMult
  import opened Sha512
  import Sc
  import ScOps
  import Sha512Spec

  /** g(n) is n times the base point: a group of curve points in which L times the base point is neutral. */
  ghost predicate Cyclic(g: int -> Point) {
    && (forall n, k :: SumsTo(g, n, k))
    && (forall n :: NegatesTo(g, n))
    && (forall n :: OnCurve(g(n)))
    && Cong(g(0).x, 0) && Cong(g(0).y, 1)
    && (forall n :: Periodic(g, n))
  }

  ghost predicate SumsTo(g: int -> Point, n: int, k: int) { IsSum(g(n), g(k), g(n + k)) }

  ghost predicate NegatesTo(g: int -> Point, n: int) { g(-n) == Neg(g(n)) }

  ghost predicate Periodic(g: int -> Point, n: int) { SamePoint(g(n + Sc.L), g(n)) }

  /** m A + n B when A is c B. */
  function Multiples(g: int -> Point, c: int): (int, int) -> Point {
    (m: int, n: int) => g(n + c * m)
  }

  lemma MultiplesGroup(g: int -> Point, c: int)
    requires Cyclic(g)
    ensures Group(Multiples(g, c))
  {
    hide IsSum, OnCurve, Cong;
    var q := Multiples(g, c);
    forall m, n, k, l ensures Sums(q, m, n, k, l) {
      assert SumsTo(g, n + c * m, l + c * k);
      Linear(c, m, n, k, l);
    }
    forall m, n ensures Negates(q, m, n) {
      assert NegatesTo(g, n + c * m);
      Linear(c, m, n, 0, 0);
    }
    forall m, n ensures Lies(q, m, n) {
      assert OnCurve(g(n + c * m));
    }
    assert 0 + c * 0 == 0;
  }

  lemma Linear(c: int, m: int, n: int, k: int, l: int)
    ensures (n + c * m) + (l + c * k) == (n + l) + c * (m + k)
    ensures -n + c * -m == -(n + c * m)
  {}

  /** In a group where q(1, 0) is c B, q(m, n) is (n + c m) B. */
  lemma {:induction false} FamilyIs(q: (int, int) -> Point, g: int -> Point, c: int, m: nat, n: int)
    requires Group(q) && Cyclic(g) && SamePoint(q(1, 0), g(c)) && SamePoint(q(0, n), g(n))
    ensures SamePoint(q(m, n), g(n + c * m))
  {
    hide IsSum, OnCurve, SamePoint, Cong;
    if m == 0 {
      assert n + c * 0 == n;
    } else {
      FamilyIs(q, g, c, m - 1, n);
      var k := n + c * (m - 1);
      assert Sums(q, m - 1, n, 1, 0) && SumsTo(g, k, c);
      SumSame(q(m - 1, n), q(1, 0), q(m, n), g(k), g(c));
      assert k + c == n + c * m;
      SumUnique(g(k), g(c), q(m, n), g(n + c * m));
    }
  }

  /** Adding a multiple of L changes nothing. */
  lemma {:induction false} PeriodicBy(g: int -> Point, n: int, k: nat)
    requires Cyclic(g)
    ensures SamePoint(g(n + k * Sc.L), g(n))
  {
    hide IsSum, OnCurve, SamePoint, Cong;
    if k == 0 {
      SameRefl(g(n));
      assert n + 0 * Sc.L == n;
    } else {
      PeriodicBy(g, n, k - 1);
      var l := n + (k - 1) * Sc.L;
      assert Periodic(g, l);
      assert l + Sc.L == n + k * Sc.L;
      SameTrans(g(n + k * Sc.L), g(l), g(n));
    }
  }

  lemma SameEncoding(a: Point, b: Point)
    requires SamePoint(a, b)
    ensures Encoding(a) == Encoding(b)
  {
    ResidueCong(a.x, b.x);
    ResidueCong(a.y, b.y);
  }

  /** The tables of precomp_data.h. */
  datatype Tables = Tables(base: seq<seq<Precomp>>, Bi: seq<Precomp>)

  ghost predicate TablesFor(t: Tables, q: (int, int) -> Point) {
    Group(q) && BaseTable(t.base, q) && OddBase(t.Bi, q)
  }

  /** The first half of the private key is a scalar below 2^255, the second half a secret prefix. */
  predicate PrivateKey(sk: seq<byte>) { |sk| == 64 && sk[31] <= 127 }

  /** sk is h with three low bits and the top bit cleared and the next one set. */
  predicate Clamped(sk: seq<byte>, h: seq<byte>)
    requires |sk| == 64 && |h| == 64
  {
    && sk[0] as int == h[0] as int / 8 * 8 && sk[31] as int == h[31] as int % 64 + 64
    && sk[1..31] == h[1..31] && sk[32..] == h[32..]
  }

  /** A private key from a seed: the hash, with three low bits and the top bit cleared and the next one set. */
  method CreatePrivateKey(seed: seq<byte>) returns (sk: seq<byte>)
    requires |seed| == 32
    ensures PrivateKey(sk) && Clamped(sk, Sha512Spec.Sha512(seed))
    ensures LittleEndian(sk[..32]) ==
            Pow2(254) + LittleEndian(Sha512Spec.Sha512(seed)[..32]) % Pow2(254) / 8 * 8
  {
    hide Digested, BitAnd, BitOr, LittleEndian, Pow2, Sha512Spec.Sha512;
    var h := Hash(seed);
    var low := BitAnd(248, h[0] as int);
    var high := BitOr(BitAnd(63, h[31] as int), 64);
    ClampLow(h[0] as int);
    ClampHigh(h[31] as int);
    sk := h[0 := low][31 := high];
    assert forall i :: 0 <= i < 64 && i != 0 && i != 31 ==> sk[i] == h[i];
    ClampedScalar(sk, h);
  }

  /** Clamping keeps the bits from 3 to 253 and sets bit 254. */
  lemma ClampedScalar(sk: seq<byte>, h: seq<byte>)
    requires |sk| == |h| == 64 && sk[0] as int == h[0] as int / 8 * 8 && sk[31] as int == h[31] as int % 64 + 64
    requires sk[1..31] == h[1..31]
    ensures LittleEndian(sk[..32]) == Pow2(254) + LittleEndian(h[..32]) % Pow2(254) / 8 * 8
  {
    hide Pow2, LittleEndian;
    ByteSplit(sk);
    ByteSplit(h);
    var rest, q := LittleEndian(h[1..31]), Pow2(240);
    LittleEndianBound(h[1..31]);
    SmallPowers();
    Powers();
    Pow2Add(8, 240);
    Pow2Add(248, 6);
    ClampedSum(h[0] as int, rest, h[31] as int, q);
  }

  /** The first and the last of 32 bytes apart. */
  lemma ByteSplit(x: seq<byte>)
    requires |x| == 64
    ensures LittleEndian(x[..32]) == x[0] as int + 256 * LittleEndian(x[1..31]) + Pow2(248) * (x[31] as int)
  {
    hide Pow2, LittleEndian;
    LittleEndianAppend(x[..31], x[31]);
    assert x[..32] == x[..31] + [x[31]];
    Next(x[..31], 0);
    assert x[..31][0..] == x[..31] && x[..31][1..] == x[1..31];
  }

  lemma ClampedSum(b: nat, rest: nat, t: nat, q: nat)
    requires b < 256 && t < 256 && rest < q
    ensures b / 8 * 8 + 256 * rest + 256 * q * (t % 64 + 64) ==
            256 * q * 64 + (b + 256 * rest + 256 * q * t) % (256 * q * 64) / 8 * 8
  {
    var low := b + 256 * rest + 256 * (q * (t % 64));
    assert low < 256 * q * 64 by { Fits(rest, q, t % 64); }
    assert b + 256 * rest + 256 * q * t == (256 * q * 64) * (t / 64) + low by { Distribute(q, t / 64, t % 64); }
    ModUnique(b + 256 * rest + 256 * q * t, 256 * q * 64, t / 64, low);
    ModUnique(low, 8, b / 8 + 32 * rest + 32 * (q * (t % 64)), b % 8);
  }

  lemma Fits(rest: nat, q: nat, u: nat)
    requires rest < q && u < 64
    ensures rest + q * u < q * 64
  {
    assert q * u <= q * 63;
  }

  lemma Distribute(q: nat, k: nat, u: nat)
    ensures 256 * q * (64 * k + u) == (256 * q * 64) * k + 256 * (q * u)
  {}

  lemma ClampLow(x: nat)
    requires x < 256
    ensures BitAnd(248, x) == x / 8 * 8
  {
    hide BitAnd;
    AndEven(124, x);
    AndEven(62, x / 2);
    AndEven(31, x / 2 / 2);
    SmallPowers();
    AndMask(5, x / 2 / 2 / 2);
  }

  lemma ClampHigh(x: nat)
    requires x < 256
    ensures BitOr(BitAnd(63, x), 64) == x % 64 + 64
  {
    SmallPowers();
    AndMask(6, x);
    OrDisjoint(BitAnd(63, x), 1, 6);
  }

  /** The public key is the encoding of the scalar times the base point. */
  method ComputePublicKey(sk: seq<byte>, t: Tables, ghost q: (int, int) -> Point) returns (pk: seq<byte>)
    requires PrivateKey(sk) && TablesFor(t, q) && PrimeField()
    ensures |pk| == 32 && LittleEndian(pk) == Encoding(q(0, LittleEndian(sk[..32])))
  {
    hide RepP3, Group, BaseTable, OddBase, LittleEndian, PrimeField, Encoding;
    var A := GeScalarMultBase(sk[..32], t.base, q);
    pk := GeP3ToBytes(A, q(0, LittleEndian(sk[..32])));
  }

  method HashOf(x: seq<byte>, y: seq<byte>, z: seq<byte>) returns (h: seq<byte>)
    ensures h == Digested(x + y + z)
  {
    hide *;
    var ctx := new Context();
    ctx.Update(x, []);
    assert [] + x == x;
    ctx.Update(y, x);
    ctx.Update(z, x + y);
    h := ctx.Final(x + y + z);
  }

  /** What is hashed for the nonce determines the secret prefix and the message. */
  lemma NonceInput(sk: seq<byte>, message: seq<byte>, sk': seq<byte>, message': seq<byte>)
    requires |sk| == |sk'| == 64
    ensures sk[32..] + message == sk'[32..] + message' <==> sk[32..] == sk'[32..] && message == message'
  {
    if sk[32..] + message == sk'[32..] + message' { SameParts(sk[32..], message, sk'[32..], message'); }
  }

  /** What is hashed for the challenge determines R, the public key and the message. */
  lemma ChallengeInput(r: seq<byte>, pk: seq<byte>, message: seq<byte>,
                       r': seq<byte>, pk': seq<byte>, message': seq<byte>)
    requires |r| == |r'| == |pk| == |pk'| == 32
    ensures r + pk + message == r' + pk' + message' <==> r == r' && pk == pk' && message == message'
  {
    if r + pk + message == r' + pk' + message' {
      SameParts(r + pk, message, r' + pk', message');
      SameParts(r, pk, r', pk');
    }
  }

  lemma ReducedTop(r: seq<byte>)
    requires |r| == 32 && LittleEndian(r) < Sc.L
    ensures r[31] < 32
  {
    hide LittleEndian;
    ScOps.TopByte(r);
  }

  /** R = r B and S = h a + r modulo L, where r is the hash of the secret prefix and the message, and h that of R, the
      public key and the message. */
  method Sign(message: seq<byte>, pk: seq<byte>, sk: seq<byte>, t: Tables, ghost q: (int, int) -> Point)
    returns (signature: seq<byte>)
    requires |pk| == 32 && |sk| == 64 && TablesFor(t, q) && PrimeField()
    ensures |signature| == 64 && signature[63] < 32
    ensures var r := LittleEndian(Digested(sk[32..] + message)) % Sc.L;
            var h := LittleEndian(Digested(signature[..32] + pk + message)) % Sc.L;
            && LittleEndian(signature[..32]) == Encoding(q(0, r))
            && LittleEndian(signature[32..]) == (h * LittleEndian(sk[..32]) + r) % Sc.L
    ensures 8 * (64 + |message|) < Sha512Spec.TWO64 ==>
              && Digested(sk[32..] + message) == Sha512Spec.Sha512(sk[32..] + message)
              && Digested(signature[..32] + pk + message) == Sha512Spec.Sha512(signature[..32] + pk + message)
  {
    hide Sha512Spec.Sha512, RepP3, Group, BaseTable, OddBase, LittleEndian, PrimeField, Encoding, Digested;
    var digest := HashOf(sk[32..], message, []);
    assert sk[32..] + message + [] == sk[32..] + message;
    var r := ScOps.ScReduced(digest);
    ReducedTop(r);
    var R := GeScalarMultBase(r, t.base, q);
    var encoded := GeP3ToBytes(R, q(0, LittleEndian(r)));
    digest := HashOf(encoded, pk, message);
    var hram := ScOps.ScReduced(digest);
    var S := ScOps.ScMulAdd(hram, sk[..32], r);
    ReducedTop(S);
    signature := encoded + S;
    assert signature[..32] == encoded && signature[32..] == S;
    StandardDigest(sk[32..] + message);
    StandardDigest(encoded + pk + message);
  }

  /** consttime_equal: the or of the bytewise exclusive ors is zero. */
  method ConstTimeEqual(x: seq<byte>, y: seq<byte>) returns (eq: bool)
    requires |x| == |y| == 32
    ensures eq <==> x == y
  {
    hide BitOr, BitXor;
    var r: nat := BitXor(x[0] as int, y[0] as int);
    XorEqual(x[0] as int, y[0] as int);
    for i := 1 to 32
      invariant r == 0 <==> x[..i] == y[..i]
    {
      var e := BitXor(x[i] as int, y[i] as int);
      XorEqual(x[i] as int, y[i] as int);
      OrIsZero(r, e);
      r := BitOr(r, e);
      assert x[..i + 1] == x[..i] + [x[i]] && y[..i + 1] == y[..i] + [y[i]];
    }
    eq := r == 0;
    assert x[..32] == x && y[..32] == y;
  }

  lemma TopThreeBits(x: nat)
    requires x < 256
    ensures BitAnd(224, x) == 0 <==> x < 32
  {
    hide BitAnd;
    AndEven(112, x);
    AndEven(56, x / 2);
    AndEven(28, x / 2 / 2);
    var z := x / 2 / 2 / 2;
    AndEven(14, z);
    AndEven(7, z / 2);
    SmallPowers();
    AndMask(3, z / 2 / 2);
  }

  /** For every point a of the curve, fam(a)(m, n) is m a + n B. */
  ghost predicate CurveGroup(fam: Point -> (int, int) -> Point, t: Tables) {
    forall a :: OnCurve(a) ==> TablesFor(t, fam(a)) && SamePoint(fam(a)(1, 0), a)
  }

  /** a is the negated public key, and R encodes h a + S B. */
  ghost predicate Verifies(signature: seq<byte>, h: nat, pk: seq<byte>, fam: Point -> (int, int) -> Point, a: Point)
    requires |signature| == 64 && |pk| == 32
  {
    && Decoded(pk, a)
    && LittleEndian(signature[..32]) == Encoding(fam(a)(h, LittleEndian(signature[32..])))
  }

  /** The end of ed25519_verify: does R encode h A + S B? */
  method CheckPoint(signature: seq<byte>, h: seq<byte>, A: P3, Bi: seq<Precomp>, ghost q: (int, int) -> Point)
    returns (ok: bool)
    requires |signature| == 64 && signature[63] < 32 && |h| == 32 && h[31] < 32
    requires Group(q) && RepP3(A, q(1, 0)) && OddBase(Bi, q) && PrimeField()
    ensures ok <==> LittleEndian(signature[..32]) == Encoding(q(LittleEndian(h), LittleEndian(signature[32..])))
  {
    hide *;
    var R, x, y := GeDoubleScalarMult(h, A, signature[32..], Bi, q);
    var checker := GeToBytes(R, q(x, y));
    ok := ConstTimeEqual(checker, signature[..32]);
    if LittleEndian(checker) == LittleEndian(signature[..32]) {
      LittleEndianInjective(checker, signature[..32]);
    }
  }

  /** A point for A: one under which the signature verifies, if there is one. */
  lemma ChoosePoint(signature: seq<byte>, h: nat, pk: seq<byte>, t: Tables, fam: Point -> (int, int) -> Point, A: P3)
    returns (a: Point)
    requires |signature| == 64 && |pk| == 32 && PrimeField() && CurveGroup(fam, t)
    requires RepP3(A, Affine(A)) && Decoded(pk, Affine(A))
    ensures Decoded(pk, a) && TablesFor(t, fam(a)) && RepP3(A, fam(a)(1, 0))
    ensures (exists b :: Verifies(signature, h, pk, fam, b)) ==> Verifies(signature, h, pk, fam, a)
  {
    hide RepP3, TablesFor, PrimeField, SamePoint, Encoding, LittleEndian, OnCurve, Cong;
    a := Affine(A);
    if b :| Verifies(signature, h, pk, fam, b) {
      a := b;
      DecodedUnique(pk, Affine(A), a);
      SameP3(A, Affine(A), a);
    }
    SameSym(fam(a)(1, 0), a);
    SameP3(A, a, fam(a)(1, 0));
  }

  /** Accepts exactly the signatures that verify. */
  method Verify(signature: seq<byte>, message: seq<byte>, pk: seq<byte>, t: Tables,
                ghost fam: Point -> (int, int) -> Point) returns (ok: bool)
    requires |signature| == 64 && |pk| == 32 && PrimeField() && CurveGroup(fam, t)
    ensures var h := LittleEndian(Digested(signature[..32] + pk + message)) % Sc.L;
            ok <==> signature[63] < 32 && exists a :: Verifies(signature, h, pk, fam, a)
    ensures 8 * (64 + |message|) < Sha512Spec.TWO64 ==>
              Digested(signature[..32] + pk + message) == Sha512Spec.Sha512(signature[..32] + pk + message)
  {
    hide Decoded, RepP3, Group, BaseTable, OddBase, PrimeField, CurveGroup, Digested, Encoding, LittleEndian, BitAnd;
    hide Sha512Spec.Sha512;
    StandardDigest(signature[..32] + pk + message);
    TopThreeBits(signature[63] as int);
    if BitAnd(224, signature[63] as int) != 0 {
      return false;
    }
    var A;
    ok, A := GeFromBytesNegate(pk);
    if !ok {
      return;
    }
    var digest := HashOf(signature[..32], pk, message);
    ghost var a := ChoosePoint(signature, LittleEndian(digest) % Sc.L, pk, t, fam, A);
    var h := ScOps.ScReduced(digest);
    ReducedTop(h);
    ok := CheckPoint(signature, h, A, t.Bi, fam(a));
  }

  /** fam(a)(0, n) is n B. */
  ghost predicate SameBase(fam: Point -> (int, int) -> Point, g: int -> Point) {
    forall a, n :: OnCurve(a) ==> SamePoint(fam(a)(0, n), g(n))
  }

  /** The group hypotheses: g(n) is n B, fam(a)(m, n) is m a + n B, and the tables hold multiples of B. */
  ghost predicate Ed25519Group(g: int -> Point, fam: Point -> (int, int) -> Point, t: Tables) {
    Cyclic(g) && TablesFor(t, Multiples(g, 0)) && CurveGroup(fam, t) && SameBase(fam, g)
  }

  /** The equations of ed25519_sign for secret scalar s, nonce r and challenge h. */
  ghost predicate Signed(signature: seq<byte>, h: nat, pk: seq<byte>, s: int, r: int, g: int -> Point) {
    && |signature| == 64 && |pk| == 32 && 0 <= s && 0 <= r
    && LittleEndian(pk) == Encoding(g(s))
    && LittleEndian(signature[..32]) == Encoding(g(r))
    && LittleEndian(signature[32..]) == (h * s + r) % Sc.L
  }

  /** The points h (-s B) + S B and r B are the same. */
  lemma VerificationPoint(q: (int, int) -> Point, g: int -> Point, s: int, r: int, h: nat, S: nat)
    requires 0 <= s && 0 <= r && S == (h * s + r) % Sc.L
    requires Group(q) && Cyclic(g) && SamePoint(q(1, 0), g(-s)) && SamePoint(q(0, S), g(S))
    ensures SamePoint(q(h, S), g(r))
  {
    hide Group, Cyclic, SamePoint;
    FamilyIs(q, g, -s, h, S);
    var n, k := S + -s * h, (h * s + r) / Sc.L;
    Cancel(h, s, r, S, k);
    PeriodicBy(g, n, k);
    SameSym(g(r), g(n));
    SameTrans(q(h, S), g(n), g(r));
  }

  /** What ed25519_sign produces verifies under the public key of the same private key. */
  lemma SignatureVerifies(signature: seq<byte>, h: nat, pk: seq<byte>, s: int, r: int,
                          g: int -> Point, fam: Point -> (int, int) -> Point, t: Tables)
    requires Signed(signature, h, pk, s, r, g) && PrimeField() && Ed25519Group(g, fam, t)
    ensures Verifies(signature, h, pk, fam, g(-s))
  {
    hide PrimeField, Ed25519Group, Group, Cyclic, SamePoint, Encoding, LittleEndian, OnCurve, Decoded, Neg;
    var a, S := g(-s), LittleEndian(signature[32..]);
    PointFacts(g, fam, t, s, S);
    EncodedIsDecoded(pk, a);
    VerificationPoint(fam(a), g, s, r, h, S);
    SameEncoding(fam(a)(h, S), g(r));
  }

  lemma PointFacts(g: int -> Point, fam: Point -> (int, int) -> Point, t: Tables, s: int, n: int)
    requires Ed25519Group(g, fam, t)
    ensures OnCurve(g(-s)) && Neg(g(-s)) == g(s) && Cyclic(g) && Group(fam(g(-s)))
    ensures SamePoint(fam(g(-s))(1, 0), g(-s)) && SamePoint(fam(g(-s))(0, n), g(n))
  {
    hide SamePoint, Cong, IsSum, Group, BaseTable, OddBase;
    assert NegatesTo(g, s);
  }

  lemma Cancel(h: int, s: int, r: int, S: int, k: int)
    requires 0 <= h && 0 <= s && 0 <= r && S == (h * s + r) % Sc.L && k == (h * s + r) / Sc.L
    ensures 0 <= k && (S + -s * h) + k * Sc.L == r
  {
    assert h * s >= 0;
  }

  /** Signing and verifying with a key pair always succeeds. */
  method SignThenVerify(message: seq<byte>, sk: seq<byte>, t: Tables,
                        ghost g: int -> Point, ghost fam: Point -> (int, int) -> Point) returns (ok: bool)
    requires PrivateKey(sk) && PrimeField() && Ed25519Group(g, fam, t)
    ensures ok
  {
    hide PrimeField, Cyclic, TablesFor, CurveGroup, SameBase, Digested, Encoding, LittleEndian, Verifies;
    hide Sha512Spec.Sha512;
    ghost var q := Multiples(g, 0);
    ghost var s, r := LittleEndian(sk[..32]), LittleEndian(Digested(sk[32..] + message)) % Sc.L;
    var pk := ComputePublicKey(sk, t, q);
    var signature := Sign(message, pk, sk, t, q);
    assert q(0, s) == g(s) && q(0, r) == g(r);
    ghost var h := LittleEndian(Digested(signature[..32] + pk + message)) % Sc.L;
    assert Signed(signature, h, pk, s, r, g);
    SignatureVerifies(signature, h, pk, s, r, g, fam, t);
    ok := Verify(signature, message, pk, t, fam);
  }
}
