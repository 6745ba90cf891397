/** The constants of SHA-512 (sections 4.2.3 and 5.3.5 of FIPS 180-4): the first 64 bits of the fractional parts of the
    cube roots of the first eighty primes, and of the square roots of the first eight. */
module Sha512Constants {
  /** K_8i to K_8i+7. */
  function KRow(i: nat): (row: seq<bv64>)
    ensures |row| == 8
  {
    match i
    case 0 => [0x428a2f98_d728ae22, 0x71374491_23ef65cd, 0xb5c0fbcf_ec4d3b2f, 0xe9b5dba5_8189dbbc,
               0x3956c25b_f348b538, 0x59f111f1_b605d019, 0x923f82a4_af194f9b, 0xab1c5ed5_da6d8118]
    case 1 => [0xd807aa98_a3030242, 0x12835b01_45706fbe, 0x243185be_4ee4b28c, 0x550c7dc3_d5ffb4e2,
               0x72be5d74_f27b896f, 0x80deb1fe_3b1696b1, 0x9bdc06a7_25c71235, 0xc19bf174_cf692694]
    case 2 => [0xe49b69c1_9ef14ad2, 0xefbe4786_384f25e3, 0x0fc19dc6_8b8cd5b5, 0x240ca1cc_77ac9c65,
               0x2de92c6f_592b0275, 0x4a7484aa_6ea6e483, 0x5cb0a9dc_bd41fbd4, 0x76f988da_831153b5]
    case 3 => [0x983e5152_ee66dfab, 0xa831c66d_2db43210, 0xb00327c8_98fb213f, 0xbf597fc7_beef0ee4,
               0xc6e00bf3_3da88fc2, 0xd5a79147_930aa725, 0x06ca6351_e003826f, 0x14292967_0a0e6e70]
    case 4 => [0x27b70a85_46d22ffc, 0x2e1b2138_5c26c926, 0x4d2c6dfc_5ac42aed, 0x53380d13_9d95b3df,
               0x650a7354_8baf63de, 0x766a0abb_3c77b2a8, 0x81c2c92e_47edaee6, 0x92722c85_1482353b]
    case 5 => [0xa2bfe8a1_4cf10364, 0xa81a664b_bc423001, 0xc24b8b70_d0f89791, 0xc76c51a3_0654be30,
               0xd192e819_d6ef5218, 0xd6990624_5565a910, 0xf40e3585_5771202a, 0x106aa070_32bbd1b8]
    case 6 => [0x19a4c116_b8d2d0c8, 0x1e376c08_5141ab53, 0x2748774c_df8eeb99, 0x34b0bcb5_e19b48a8,
               0x391c0cb3_c5c95a63, 0x4ed8aa4a_e3418acb, 0x5b9cca4f_7763e373, 0x682e6ff3_d6b2b8a3]
    case 7 => [0x748f82ee_5defb2fc, 0x78a5636f_43172f60, 0x84c87814_a1f0ab72, 0x8cc70208_1a6439ec,
               0x90befffa_23631e28, 0xa4506ceb_de82bde9, 0xbef9a3f7_b2c67915, 0xc67178f2_e372532b]
    case 8 => [0xca273ece_ea26619c, 0xd186b8c7_21c0c207, 0xeada7dd6_cde0eb1e, 0xf57d4f7f_ee6ed178,
               0x06f067aa_72176fba, 0x0a637dc5_a2c898a6, 0x113f9804_bef90dae, 0x1b710b35_131c471b]
    case _ => [0x28db77f5_23047d84, 0x32caab7b_40c72493, 0x3c9ebe0a_15c9bebc, 0x431d67c4_9c100d4c,
               0x4cc5d4be_cb3e42b6, 0x597f299c_fc657e2a, 0x5fcb6fab_3ad6faec, 0x6c44198c_4a475817]
  }

  function K(t: nat): bv64
    requires t < 80
  {
    KRow(t / 8)[t % 8]
  }

  function PrimeRow(i: nat): (row: seq<nat>)
    ensures |row| == 8
  {
    match i
    case 0 => [2, 3, 5, 7, 11, 13, 17, 19]
    case 1 => [23, 29, 31, 37, 41, 43, 47, 53]
    case 2 => [59, 61, 67, 71, 73, 79, 83, 89]
    case 3 => [97, 101, 103, 107, 109, 113, 127, 131]
    case 4 => [137, 139, 149, 151, 157, 163, 167, 173]
    case 5 => [179, 181, 191, 193, 197, 199, 211, 223]
    case 6 => [227, 229, 233, 239, 241, 251, 257, 263]
    case 7 => [269, 271, 277, 281, 283, 293, 307, 311]
    case 8 => [313, 317, 331, 337, 347, 349, 353, 359]
    case _ => [367, 373, 379, 383, 389, 397, 401, 409]
  }

  /** The first eighty primes. */
  function PrimeNumber(t: nat): nat
    requires t < 80
  {
    PrimeRow(t / 8)[t % 8]
  }

  const SCALE: nat := 0x1_0000_0000_0000_0000

  /** The integer part of the cube root of a number below 512. */
  function CubeRoot(p: nat): nat {
    if p < 8 then 1 else if p < 27 then 2 else if p < 64 then 3 else if p < 125 then 4
    else if p < 216 then 5 else if p < 343 then 6 else 7
  }

  /** The cube root of p starts with its integer part and the 64 bits of x: with k for both, k^3 is at most 2^192 p and
      (k + 1)^3 is more. */
  predicate CubeFraction(p: nat, x: bv64) {
    var k := CubeRoot(p) * SCALE + x as int;
    k * k * k <= p * (SCALE * SCALE * SCALE) < (k + 1) * (k + 1) * (k + 1)
  }

  /** K_t is the fraction of the cube root of the t-th prime. */
  lemma CubeFractions(t: nat)
    requires t < 80
    ensures CubeFraction(PrimeNumber(t), K(t))
  {
    hide CubeFraction, KRow, PrimeRow;
    var j := t % 8;
    match t / 8
    case 0 => Cubes0(j);
    case 1 => Cubes1(j);
    case 2 => Cubes2(j);
    case 3 => Cubes3(j);
    case 4 => Cubes4(j);
    case 5 => Cubes5(j);
    case 6 => Cubes6(j);
    case 7 => Cubes7(j);
    case 8 => Cubes8(j);
    case _ => Cubes9(j);
  }

  lemma Cubes0(j: nat)
    requires j < 8
    ensures CubeFraction(PrimeRow(0)[j], KRow(0)[j])
  {}

  lemma Cubes1(j: nat)
    requires j < 8
    ensures CubeFraction(PrimeRow(1)[j], KRow(1)[j])
  {}

  lemma Cubes2(j: nat)
    requires j < 8
    ensures CubeFraction(PrimeRow(2)[j], KRow(2)[j])
  {}

  lemma Cubes3(j: nat)
    requires j < 8
    ensures CubeFraction(PrimeRow(3)[j], KRow(3)[j])
  {}

  lemma Cubes4(j: nat)
    requires j < 8
    ensures CubeFraction(PrimeRow(4)[j], KRow(4)[j])
  {}

  lemma Cubes5(j: nat)
    requires j < 8
    ensures CubeFraction(PrimeRow(5)[j], KRow(5)[j])
  {}

  lemma Cubes6(j: nat)
    requires j < 8
    ensures CubeFraction(PrimeRow(6)[j], KRow(6)[j])
  {}

  lemma Cubes7(j: nat)
    requires j < 8
    ensures CubeFraction(PrimeRow(7)[j], KRow(7)[j])
  {}

  lemma Cubes8(j: nat)
    requires j < 8
    ensures CubeFraction(PrimeRow(8)[j], KRow(8)[j])
  {}

  lemma Cubes9(j: nat)
    requires j < 8
    ensures CubeFraction(PrimeRow(9)[j], KRow(9)[j])
  {}

  /** The same for square roots of numbers below 25. */
  predicate SquareFraction(p: nat, x: bv64) {
    var k := (if p < 4 then 1 else if p < 9 then 2 else if p < 16 then 3 else 4) * SCALE + x as int;
    k * k <= p * (SCALE * SCALE) < (k + 1) * (k + 1)
  }
}
