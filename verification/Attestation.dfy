/** The keys and the certificate that enclave_init gives an enclave once it is measured (src/api/enclave_init.c). */
module Attestation {
  import opened Words
  import opened Bytes
  import opened Edwards
  import opened Root
  import opened PointCoding
  import opened ScalarMult
  import opened Sha512
  import opened Signature
  import Sc
  import Sha512Spec

  /** What is hashed for an enclave's key determines the monitor's key and the measurement, and what is hashed for its
      certificate determines the measurement and the enclave's public key. */
  lemma HashedInputs(sk: seq<byte>, measurement: seq<byte>, key: seq<byte>,
                     sk': seq<byte>, measurement': seq<byte>, key': seq<byte>)
    requires |sk| == |sk'| == 64 && |measurement| == |measurement'| == 64
    ensures sk + measurement == sk' + measurement' <==> sk == sk' && measurement == measurement'
    ensures measurement + key == measurement' + key' <==> measurement == measurement' && key == key'
  {
    if sk + measurement == sk' + measurement' { SameParts(sk, measurement, sk', measurement'); }
    if measurement + key == measurement' + key' { SameParts(measurement, key, measurement', key'); }
  }

  /** The enclave's key pair, from the hash of the monitor's private key and the measurement, and the monitor's
      signature of the hash of the measurement and the enclave's public key. */
  method Attest(measurement: seq<byte>, pk: seq<byte>, sk: seq<byte>, t: Tables, ghost g: int -> Point)
    returns (enclaveSecret: seq<byte>, enclaveKey: seq<byte>, attestation: seq<byte>)
    requires |measurement| == 64 && |pk| == 32 && |sk| == 64 && PrimeField() && TablesFor(t, Multiples(g, 0))
    requires LittleEndian(pk) == Encoding(g(LittleEndian(sk[..32])))
    ensures |enclaveSecret| == 64
            && Clamped(enclaveSecret, Sha512Spec.Sha512(Sha512Spec.Sha512(sk + measurement)[..32]))
    ensures |enclaveKey| == 32
    ensures LittleEndian(enclaveKey) == Encoding(g(LittleEndian(enclaveSecret[..32])))
    ensures |attestation| == 64
    ensures var message := Sha512Spec.Sha512(measurement + enclaveKey);
            var r := LittleEndian(Digested(sk[32..] + message)) % Sc.L;
            var h := LittleEndian(Digested(attestation[..32] + pk + message)) % Sc.L;
            Signed(attestation, h, pk, LittleEndian(sk[..32]), r, g)
  {
    hide PrimeField, TablesFor, Encoding, LittleEndian, Digested, Clamped, Sha512Spec.Sha512;
    ghost var q := Multiples(g, 0);
    var h := HashOf(sk, measurement, []);
    assert sk + measurement + [] == sk + measurement;
    StandardDigest(sk + measurement);
    enclaveSecret := CreatePrivateKey(h[..32]);
    enclaveKey := ComputePublicKey(enclaveSecret, t, q);
    var message := HashOf(measurement, enclaveKey, []);
    assert measurement + enclaveKey + [] == measurement + enclaveKey;
    StandardDigest(measurement + enclaveKey);
    attestation := Signature.Sign(message, pk, sk, t, q);
    ghost var s, r := LittleEndian(sk[..32]), LittleEndian(Digested(sk[32..] + message)) % Sc.L;
    ghost var e := LittleEndian(enclaveSecret[..32]);
    assert q(0, s) == g(s) && q(0, r) == g(r) && q(0, e) == g(e);
  }

  /** A verifier that recomputes the certified message accepts the attestation under the monitor's public key. */
  method AttestThenVerify(measurement: seq<byte>, pk: seq<byte>, sk: seq<byte>, t: Tables,
                          ghost g: int -> Point, ghost fam: Point -> (int, int) -> Point) returns (ok: bool)
    requires |measurement| == 64 && |pk| == 32 && |sk| == 64 && PrimeField() && Ed25519Group(g, fam, t)
    requires LittleEndian(pk) == Encoding(g(LittleEndian(sk[..32])))
    ensures ok
  {
    hide PrimeField, Cyclic, TablesFor, CurveGroup, SameBase, Encoding, LittleEndian, Verifies, Digested, Clamped;
    hide Sha512Spec.Sha512;
    var _, enclaveKey, attestation := Attest(measurement, pk, sk, t, g);
    var message := HashOf(measurement, enclaveKey, []);
    assert measurement + enclaveKey + [] == measurement + enclaveKey;
    StandardDigest(measurement + enclaveKey);
    ghost var s, r := LittleEndian(sk[..32]), LittleEndian(Digested(sk[32..] + message)) % Sc.L;
    ghost var h := LittleEndian(Digested(attestation[..32] + pk + message)) % Sc.L;
    SignatureVerifies(attestation, h, pk, s, r, g, fam, t);
    SignedTop(attestation, h, pk, s, r, g);
    ok := Verify(attestation, message, pk, t, fam);
  }

  /** The scalar of a signature is reduced, so its top three bits are clear. */
  lemma SignedTop(signature: seq<byte>, h: nat, pk: seq<byte>, s: int, r: int, g: int -> Point)
    requires Signed(signature, h, pk, s, r, g)
    ensures signature[63] < 32
  {
    hide LittleEndian, Encoding;
    ReducedTop(signature[32..]);
  }
}
