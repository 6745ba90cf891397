/** The streaming implementation in src/crypto/ed25519/sha512.c. */
module Sha512 {
  import opened Words
  import opened Sha512Constants
  import opened Sha512Spec

  /** z ^ (x & (y ^ z)) */
  function Ch(x: bv64, y: bv64, z: bv64): bv64 { z ^ (x & (y ^ z)) }

  /** ((x | y) & z) | (x & y) */
  function Maj(x: bv64, y: bv64, z: bv64): bv64 { ((x | y) & z) | (x & y) }

  lemma ChIsChoose(x: bv64, y: bv64, z: bv64)
    ensures Ch(x, y, z) == Choose(x, y, z)
  {
    assert z ^ (x & (y ^ z)) == (x & y) ^ (!x & z) by { hide *; }
  }

  lemma MajIsMajority(x: bv64, y: bv64, z: bv64)
    ensures Maj(x, y, z) == Majority(x, y, z)
  {
    assert ((x | y) & z) | (x & y) == (x & y) ^ (x & z) ^ (y & z) by { hide *; }
  }

  // The macros S(x, 28) ^ S(x, 34) ^ S(x, 39) and so on, where S is ROR64c: (x >> n) | (x << (64 - n)).

  function RotSum0(x: bv64): bv64 { ((x >> 28) | (x << 36)) ^ ((x >> 34) | (x << 30)) ^ ((x >> 39) | (x << 25)) }

  function RotSum1(x: bv64): bv64 { ((x >> 14) | (x << 50)) ^ ((x >> 18) | (x << 46)) ^ ((x >> 41) | (x << 23)) }

  function Mix0(x: bv64): bv64 { ((x >> 1) | (x << 63)) ^ ((x >> 8) | (x << 56)) ^ (x >> 7) }

  function Mix1(x: bv64): bv64 { ((x >> 19) | (x << 45)) ^ ((x >> 61) | (x << 3)) ^ (x >> 6) }

  /** They are the functions of section 4.1.3, which are defined by rotations. */
  lemma RotationsAgree(x: bv64)
    ensures RotSum0(x) == Sigma0(x) && RotSum1(x) == Sigma1(x) && Mix0(x) == Gamma0(x) && Mix1(x) == Gamma1(x)
  {}

  /** The working variables in an array, in order. */
  function View(s: seq<bv64>): Regs
    requires |s| == 8
  {
    Regs(s[0], s[1], s[2], s[3], s[4], s[5], s[6], s[7])
  }

  predicate Distinct(a: nat, b: nat, c: nat, d: nat, e: nat, f: nat, g: nat, h: nat) {
    && a < 8 && b < 8 && c < 8 && d < 8 && e < 8 && f < 8 && g < 8 && h < 8
    && a != b && a != c && a != d && a != e && a != f && a != g && a != h
    && b != c && b != d && b != e && b != f && b != g && b != h && c != d
    && c != e && c != f && c != g && c != h && d != e && d != f && d != g
    && d != h && e != f && e != g && e != h && f != g && f != h && g != h
  }

  /** RND: one round on variables named by their indices. Only d and h change, and with h in front
      the variables are those of the register-shifting round. */
  method Rnd(S: array<bv64>, a: nat, b: nat, c: nat, d: nat, e: nat, f: nat, g: nat, h: nat, k: bv64, w: bv64)
    requires S.Length == 8 && Distinct(a, b, c, d, e, f, g, h)
    modifies S
    ensures Regs(S[h], S[a], S[b], S[c], S[d], S[e], S[f], S[g]) ==
            Round(old(Regs(S[a], S[b], S[c], S[d], S[e], S[f], S[g], S[h])), k, w)
  {
    hide Plus, Sigma0, Sigma1, Choose, Majority, Ch, Maj, RotSum0, RotSum1;
    ChIsChoose(S[e], S[f], S[g]);
    MajIsMajority(S[a], S[b], S[c]);
    RotationsAgree(S[a]);
    RotationsAgree(S[e]);
    var t0 := Plus(Plus(Plus(Plus(S[h], RotSum1(S[e])), Ch(S[e], S[f], S[g])), k), w);
    var t1 := Plus(RotSum0(S[a]), Maj(S[a], S[b], S[c]));
    S[d] := Plus(S[d], t0);
    S[h] := Plus(t0, t1);
  }

  /** W holds the message schedule. */
  ghost predicate Scheduled(W: seq<bv64>, block: seq<byte>, n: nat) {
    |block| == 128 && n <= |W| && forall t :: 0 <= t < n ==> W[t] == Schedule(block, t)
  }

  /** The first four rounds of a turn: the variables are half a turn away from their places. */
  method FirstRounds(S: array<bv64>, W: seq<bv64>, i: nat, ghost r: Regs, ghost block: seq<byte>)
    requires S.Length == 8 && |W| == 80 && i + 4 <= 80 && Scheduled(W, block, 80)
    requires Regs(S[0], S[1], S[2], S[3], S[4], S[5], S[6], S[7]) == Rounds(r, block, i)
    modifies S
    ensures Regs(S[4], S[5], S[6], S[7], S[0], S[1], S[2], S[3]) == Rounds(r, block, i + 4)
  {
    hide Round, Rounds, Schedule;
    Rnd(S, 0, 1, 2, 3, 4, 5, 6, 7, K(i), W[i]);
    NextRound(r, block, i);
    Rnd(S, 7, 0, 1, 2, 3, 4, 5, 6, K(i + 1), W[i + 1]);
    NextRound(r, block, i + 1);
    Rnd(S, 6, 7, 0, 1, 2, 3, 4, 5, K(i + 2), W[i + 2]);
    NextRound(r, block, i + 2);
    Rnd(S, 5, 6, 7, 0, 1, 2, 3, 4, K(i + 3), W[i + 3]);
    NextRound(r, block, i + 3);
  }

  /** The last four rounds of a turn: every variable is back in its place. */
  method LastRounds(S: array<bv64>, W: seq<bv64>, i: nat, ghost r: Regs, ghost block: seq<byte>)
    requires S.Length == 8 && |W| == 80 && i + 4 <= 80 && Scheduled(W, block, 80)
    requires Regs(S[4], S[5], S[6], S[7], S[0], S[1], S[2], S[3]) == Rounds(r, block, i)
    modifies S
    ensures Regs(S[0], S[1], S[2], S[3], S[4], S[5], S[6], S[7]) == Rounds(r, block, i + 4)
  {
    hide Round, Rounds, Schedule;
    Rnd(S, 4, 5, 6, 7, 0, 1, 2, 3, K(i), W[i]);
    NextRound(r, block, i);
    Rnd(S, 3, 4, 5, 6, 7, 0, 1, 2, K(i + 1), W[i + 1]);
    NextRound(r, block, i + 1);
    Rnd(S, 2, 3, 4, 5, 6, 7, 0, 1, K(i + 2), W[i + 2]);
    NextRound(r, block, i + 2);
    Rnd(S, 1, 2, 3, 4, 5, 6, 7, 0, K(i + 3), W[i + 3]);
    NextRound(r, block, i + 3);
  }

  lemma NextRound(r: Regs, block: seq<byte>, t: nat)
    requires |block| == 128 && t < 80
    ensures Rounds(r, block, t + 1) == Round(Rounds(r, block, t), K(t), Schedule(block, t))
  {}

  /** W_0 to W_79. */
  method FillSchedule(block: seq<byte>) returns (w: seq<bv64>)
    requires |block| == 128
    ensures |w| == 80 && Scheduled(w, block, 80)
  {
    hide Plus, Gamma0, Gamma1, Mix0, Mix1, LoadWord;
    var W := new bv64[80];
    for i := 0 to 16
      invariant Scheduled(W[..], block, i)
    {
      W[i] := LoadWord(block, 8 * i);
    }
    for i := 16 to 80
      invariant Scheduled(W[..], block, i)
    {
      RotationsAgree(W[i - 2]);
      RotationsAgree(W[i - 15]);
      W[i] := Plus(Plus(Plus(Mix1(W[i - 2]), W[i - 7]), Mix0(W[i - 15])), W[i - 16]);
    }
    w := W[..];
  }

  /** The eighty rounds on a copy of the state. */
  method AllRounds(state: seq<bv64>, block: seq<byte>) returns (s: seq<bv64>)
    requires |state| == 8 && |block| == 128
    ensures |s| == 8 && View(s) == Rounds(View(state), block, 80)
  {
    hide Rounds, Schedule, Scheduled;
    var S := new bv64[8];
    for i := 0 to 8
      invariant forall j :: 0 <= j < i ==> S[j] == state[j]
    {
      S[i] := state[i];
    }
    ghost var r := View(state);
    var W := FillSchedule(block);
    NoRounds(r, block);
    var i := 0;
    while i < 80
      invariant 0 <= i <= 80 && i % 8 == 0
      invariant Regs(S[0], S[1], S[2], S[3], S[4], S[5], S[6], S[7]) == Rounds(r, block, i)
    {
      FirstRounds(S, W, i, r, block);
      LastRounds(S, W, i + 4, r, block);
      i := i + 8;
    }
    s := S[..];
  }

  lemma NoRounds(r: Regs, block: seq<byte>)
    requires |block| == 128
    ensures Rounds(r, block, 0) == r
  {}

  /** The state after one more block. */
  method Compress(state: array<bv64>, block: seq<byte>)
    requires state.Length == 8 && |block| == 128
    modifies state
    ensures View(state[..]) == CompressBlock(View(old(state[..])), block)
  {
    hide Plus, Rounds;
    var S := AllRounds(state[..], block);
    for i := 0 to 8
      invariant forall j :: 0 <= j < i ==> state[j] == Plus(old(state[j]), S[j])
      invariant forall j :: i <= j < 8 ==> state[j] == old(state[j])
    {
      state[i] := Plus(state[i], S[i]);
    }
  }

  method SetInitial(s: array<bv64>)
    requires s.Length == 8
    modifies s
    ensures View(s[..]) == Initial
  {
    s[0], s[1], s[2] := 0x6a09e667_f3bcc908, 0xbb67ae85_84caa73b, 0x3c6ef372_fe94f82b;
    s[3], s[4], s[5] := 0xa54ff53a_5f1d36f1, 0x510e527f_ade682d1, 0x9b05688c_2b3e6c1f;
    s[6], s[7] := 0x1f83d9ab_fb41bd6b, 0x5be0cd19_137e2179;
  }

  lemma NoBlocks(r: Regs)
    ensures Chain(r, []) == r
  {}

  /** The bit count wraps around at 2^64. */
  lemma LengthStep(x: nat, n: nat)
    ensures (8 * x % TWO64 + 8 * n) % TWO64 == 8 * (x + n) % TWO64
  {}

  lemma PadLengthIs(n: nat, c: nat)
    requires c == n % 128
    ensures PadLength(n) + 8 == if c > 111 then 247 - c else 119 - c
  {}

  method Output(state: array<bv64>) returns (out: seq<byte>)
    requires state.Length == 8
    ensures out == Digest(View(state[..]))
  {
    hide StoreWord;
    out := StoreWord(state[0]) + StoreWord(state[1]) + StoreWord(state[2]) + StoreWord(state[3]) +
           StoreWord(state[4]) + StoreWord(state[5]) + StoreWord(state[6]) + StoreWord(state[7]);
  }

  /** sha512_context. */
  class Context {
    var length: nat
    var curlen: nat
    const state: array<bv64>
    const buf: array<byte>

    /** The whole blocks of m are in the state and its last curlen bytes in the buffer. */
    ghost predicate Buffered(m: seq<byte>)
      reads this`curlen, state, buf
    {
      && state.Length == 8 && buf.Length == 128
      && curlen <= 128 && curlen <= |m| && (|m| - curlen) % 128 == 0
      && View(state[..]) == Chain(Initial, m[..|m| - curlen])
      && buf[..curlen] == m[|m| - curlen..]
    }

    /** m is what the updates have been given so far. */
    ghost predicate Absorbed(m: seq<byte>)
      reads this, state, buf
    {
      Buffered(m) && curlen < 128 && length == 8 * (|m| - curlen) % TWO64
    }

    /** sha512_init. */
    constructor ()
      ensures Absorbed([]) && fresh(state) && fresh(buf)
    {
      var s := new bv64[8];
      SetInitial(s);
      length, curlen := 0, 0;
      state := s;
      buf := new byte[128];
      new;
      NoBlocks(Initial);
    }

    /** Compress a full buffer. */
    method Flush(ghost m: seq<byte>)
      requires Buffered(m) && curlen == 128
      modifies this`curlen, state
      ensures Buffered(m) && curlen == 0
    {
      hide CompressBlock, Chain;
      ghost var p := m[..|m| - 128];
      assert m == p + buf[..];
      ChainBlock(Initial, p, buf[..]);
      Compress(state, buf[..]);
      curlen := 0;
      assert m[..|m|] == m;
    }

    /** buf[curlen++] = b */
    method Push(b: byte, ghost m: seq<byte>)
      requires Buffered(m) && curlen < 128
      modifies this`curlen, buf
      ensures Buffered(m + [b]) && curlen == old(curlen) + 1
    {
      hide Chain;
      buf[curlen] := b;
      curlen := curlen + 1;
      ghost var t := m + [b];
      assert t[..|t| - curlen] == m[..|m| - old(curlen)];
      assert t[|t| - curlen..] == m[|m| - old(curlen)..] + [b];
    }

    /** while (curlen < n) buf[curlen++] = 0 */
    method PushZeros(n: nat, ghost m: seq<byte>)
      requires Buffered(m) && curlen <= n <= 128
      modifies this`curlen, buf
      ensures Buffered(m + Zeros(n - old(curlen))) && curlen == n
    {
      hide Chain;
      ghost var k := 0;
      assert m + Zeros(0) == m;
      while curlen < n
        invariant Buffered(m + Zeros(k)) && curlen <= n && k == curlen - old(curlen)
      {
        Push(0, m + Zeros(k));
        assert m + Zeros(k) + [0] == m + Zeros(k + 1);
        k := k + 1;
      }
    }
  
    /** A whole block straight from the input. */
    method AbsorbBlock(block: seq<byte>, ghost m: seq<byte>)
      requires Absorbed(m) && curlen == 0 && |block| == 128
      modifies this`length, state
      ensures Absorbed(m + block) && curlen == 0
    {
      hide Buffered;
      CompressNext(block, m);
      LengthStep(|m|, 128);
      length := (length + 128 * 8) % TWO64;
    }

    method CompressNext(block: seq<byte>, ghost m: seq<byte>)
      requires Buffered(m) && curlen == 0 && |block| == 128
      modifies state
      ensures Buffered(m + block)
    {
      hide CompressBlock, Chain, View;
      assert m[..|m|] == m;
      ChainBlock(Initial, m, block);
      Compress(state, block);
      assert (m + block)[..|m + block|] == m + block;
    }

    /** At most as many bytes as the buffer has room for. */
    method AbsorbBytes(data: seq<byte>, ghost m: seq<byte>)
      requires Absorbed(m) && |data| <= 128 - curlen
      modifies this, state, buf
      ensures Absorbed(m + data)
    {
      hide Buffered;
      CopyIn(data, m);
      BufferedShape(m + data);
      if curlen == 128 {
        Flush(m + data);
        LengthStep(|m + data| - 128, 128);
        length := (length + 8 * 128) % TWO64;
      }
    }

    method CopyIn(data: seq<byte>, ghost m: seq<byte>)
      requires Buffered(m) && |data| <= 128 - curlen
      modifies this`curlen, buf
      ensures Buffered(m + data) && curlen == old(curlen) + |data|
    {
      hide Chain, View;
      for i := 0 to |data|
        invariant curlen == old(curlen)
        invariant forall j :: 0 <= j < curlen ==> buf[j] == old(buf[j])
        invariant forall j :: 0 <= j < i ==> buf[j + curlen] == data[j]
      {
        buf[i + curlen] := data[i];
      }
      ghost var t := m + data;
      curlen := curlen + |data|;
      assert t[..|t| - curlen] == m[..|m| - old(curlen)];
      assert t[|t| - curlen..] == m[|m| - old(curlen)..] + data;
      assert buf[..curlen] == old(buf[..curlen]) + data;
    }

    /** sha512_update: however the input is split, m grows by the bytes given. */
    method Update(data: seq<byte>, ghost m: seq<byte>)
      requires Absorbed(m)
      modifies this, state, buf
      ensures Absorbed(m + data)
    {
      hide Buffered, Chain;
      var rest := data;
      ghost var done := [];
      assert m + done == m;
      while |rest| > 0
        invariant data == done + rest && Absorbed(m + done)
        decreases |rest|
      {
        var n := if curlen == 0 && |rest| >= 128 then 128
                 else if |rest| < 128 - curlen then |rest| else 128 - curlen;
        if curlen == 0 && |rest| >= 128 {
          AbsorbBlock(rest[..128], m + done);
        } else {
          AbsorbBytes(rest[..n], m + done);
        }
        assert (m + done) + rest[..n] == m + (done + rest[..n]);
        done := done + rest[..n];
        rest := rest[n..];
      }
      assert done == data;
    }
  
    /** Store the length in the last eight bytes and compress. */
    method Close(ghost m: seq<byte>)
      requires Buffered(m) && curlen == 120 && length < TWO64
      modifies state, buf
      ensures View(state[..]) == Chain(Initial, m + StoreNumber(length))
    {
      hide Chain, View, StoreNumber, CompressBlock;
      var bytes := StoreNumber(length);
      for i := 0 to 8
        invariant forall j :: 0 <= j < 120 ==> buf[j] == old(buf[j])
        invariant forall j :: 0 <= j < i ==> buf[120 + j] == bytes[j]
        modifies buf
      {
        buf[120 + i] := bytes[i];
      }
      ghost var p := m[..|m| - 120];
      assert state[..] == old(state[..]);
      assert buf[..] == old(buf[..120]) + bytes;
      assert m + bytes == p + buf[..];
      ChainBlock(Initial, p, buf[..]);
      Compress(state, buf[..]);
    }

    /** Pad with 0x80 and zeros up to the place of the length. */
    method Pad(ghost m: seq<byte>)
      requires Buffered(m) && curlen < 128
      modifies this`curlen, state, buf
      ensures Buffered(m + [0x80] + Zeros(PadLength(|m|) + 8)) && curlen == 120
    {
      hide Chain, View, Zeros, PadLength;
      PadLengthIs(|m|, curlen);
      Push(0x80, m);
      if curlen > 112 {
        PadBlock(m + [0x80]);
      } else {
        PushZeros(120, m + [0x80]);
      }
    }

    /** When the length does not fit, pad out this block and most of the next one. */
    method PadBlock(ghost m: seq<byte>)
      requires Buffered(m)
      modifies this`curlen, state, buf
      ensures Buffered(m + Zeros(248 - old(curlen))) && curlen == 120
    {
      hide Buffered, Zeros;
      BufferedShape(m);
      ghost var k := 128 - curlen;
      PushZeros(128, m);
      Flush(m + Zeros(k));
      PushZeros(120, m + Zeros(k));
      ZerosJoin(k, 120);
      assert m + Zeros(k) + Zeros(120) == m + Zeros(k + 120);
    }

    lemma BufferedShape(m: seq<byte>)
      requires Buffered(m)
      ensures curlen <= 128 && curlen <= |m| && state.Length == 8
    {}

    /** Count the bits in the buffer. */
    method CountRest(ghost m: seq<byte>)
      requires Absorbed(m)
      modifies this`length
      ensures Buffered(m) && length == 8 * |m| % TWO64 < TWO64
    {
      hide Buffered;
      BufferedShape(m);
      LengthStep(|m| - curlen, curlen);
      length := (length + curlen * 8) % TWO64;
    }

    /** sha512_final. */
    method Final(ghost m: seq<byte>) returns (out: seq<byte>)
      requires Absorbed(m)
      modifies this, state, buf
      ensures out == Digested(m)
      ensures 8 * |m| < TWO64 ==> out == Sha512Spec.Sha512(m)
    {
      hide *;
      BufferedAt(m);
      CountRest(m);
      Pad(m);
      Close(m + [0x80] + Zeros(PadLength(|m|) + 8));
      out := Output(state);
      WrappedIs(m, length);
      StandardDigest(m);
    }

    lemma BufferedAt(m: seq<byte>)
      requires Absorbed(m)
      ensures curlen < 128 && state.Length == 8
    {}
  }

  /** The digest of m as sha512_final computes it. */
  function Digested(m: seq<byte>): (s: seq<byte>)
    ensures |s| == 64
  {
    Digest(Chain(Initial, WrappedPadded(m)))
  }

  lemma WrappedIs(m: seq<byte>, length: nat)
    requires length == 8 * |m| % TWO64
    ensures Digested(m) == Digest(Chain(Initial, m + [0x80] + Zeros(PadLength(|m|) + 8) + StoreNumber(length)))
  {
    hide StoreNumber, Zeros, PadLength, Digest, Chain;
  }

  lemma StandardDigest(m: seq<byte>)
    ensures 8 * |m| < TWO64 ==> Digested(m) == Sha512Spec.Sha512(m)
  {
    hide Chain, StoreWord, Zeros, Digest, WrappedPadded, Padded;
    if 8 * |m| < TWO64 { PaddingAgrees(m); }
  }

  /** sha512. */
  method Hash(message: seq<byte>) returns (out: seq<byte>)
    ensures out == Digested(message)
    ensures 8 * |message| < TWO64 ==> out == Sha512Spec.Sha512(message)
  {
    hide Chain, StoreWord;
    var ctx := new Context();
    ctx.Update(message, []);
    assert [] + message == message;
    out := ctx.Final(message);
  }
}
