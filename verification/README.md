# A verified model of the security monitor

A Dafny model of the enclave security monitor and of the cryptography it carries, with machine-checked proofs.
`dafny verify dfyconfig.toml` checks the whole project.

Four parts of the monitor are modelled, each in the form the C sources give it.

**Ed25519 and SHA-512** (`src/crypto/ed25519`). Field elements are ten `int32_t` limbs in radix 2^25.5 and scalars are
`int64_t` limbs in radix 2^21. Both are Dafny newtypes of those widths, so a body that verifies cannot overflow. The
field operations are proved against arithmetic modulo p = 2^255 - 19, the scalar operations against arithmetic modulo
the group order, the point formulas against the affine addition law of the curve, the recodings against the scalar
they recode, and the two scalar multiplications against integer multiples of points. Hashing is proved against FIPS
180-4, whose constants are proved to be the roots that they stand for, and whose example is worked out. The results meet in `Signature.SignThenVerify`: what is signed with a private key verifies under its public key.
`Measurement` then says what an enclave's measurement depends on, and `Attestation.AttestThenVerify` that the monitor's
certificate of it verifies.

**Regions, enclaves and threads** (`src/api`, `src/common`, `platform`). `MonitorSpec` gives each call as a function on
the monitor's state, and `Monitor.SecurityMonitor` is the class whose methods update the fields step by step and are
proved to do what those functions say. `MonitorInv` is the invariant about access, pages and scans, which every call
keeps. `MonitorBooks` is about counts, owners and what runs on the cores, which two deletions can upset; it says exactly
when. `MonitorCalls` says exactly when each call succeeds and what it then changes, in terms of live objects and owners.
`MonitorRuns` holds the theorems about every run, `MonitorLife` the lives of regions, enclaves, threads and cores, and
`MonitorExample` the runs that show what careless deletions lead to. A call is one atomic step, as its locks make it, except `region_free`, which is a scan of the cores that other
calls interleave with.

**The last-level cache** (`src/common/handle_llc_changes.c`, `src/api/region_flush.c`,
`src/api/region_cache_partitionning.c`). The stop-the-world barrier is a state machine with one step for each hold of
its lock, for any number of cores and any interleaving. The repartitioning that it guards is a class over the table of
sizes and the control register.

**Page tables and the devicetree** (`src/common/load_page_table_entry.c`, `src/kernel/fdt.c`). The Sv39 loader writes
in place to a memory map and is proved against `Sv39`, the translation of the architecture. The devicetree scanner deletes nodes in place in an array of words.

What is assumed is stated as a hypothesis of each theorem that needs it: that p is prime (`Root.PrimeField`), that the
multiples of a point obey the addition law (`Edwards.Group`, shown to be satisfiable by `Edwards.GroupOfTwo`), that the
base point has the stated order, and that the precomputed tables hold the multiples they claim to hold.

Six things the code does differ from what its documentation or a reader would expect. Each is kept as the code has
it, with the exact condition:

- `is_scheduled` is read but never set, so nothing in `thread_delete` stops the deletion of a running thread. Every core
  still runs something live if and only if no core runs the thread (`MonitorBooks.ThreadDeleteExactly`); `api/api.h:257`
  makes this the caller's duty. Otherwise the enclave can be deleted under the core
  (`MonitorBooks.RunningThreadDeleted`, `MonitorExample.EnclaveDeletedUnderCore`), and the core, on its exit, takes its
  bitmap from pages that may belong to another object by then: it keeps the invariant if and only if that bitmap is
  empty (`MonitorInv.StrayExitExactly`, `MonitorExample.DetachedExitBreaksConfinement`).
- `enclave_delete` wipes the metadata region of the enclave, at `src/api/enclave_delete.c:77`, where its comment speaks
  of the regions that it blocks. So it blocks one region only, and every other object of the metadata region is gone. Access
  stays confined all the same (`MonitorInv.EnclaveDeleteKeeps`). The books stay balanced if and only if the enclave owns
  nothing or the wipe spares them (`MonitorBooks.EnclaveDeleteExactly`), and the cores attached if and only if it spares
  them (`MonitorBooks.EnclaveDeleteAttached`); `MonitorExample.RegionLeftBehind` is a run where a region is left owned by
  an enclave that is gone. The documented call keeps everything (`MonitorBooks.IntendedKeeps`).
- A core that enters `handle_llc_changes` a second time while the initiator drains the barrier can be left spinning.
  `LlcBarrier.NobodyLeftBehind` and `LlcBarrier.RepeatedEntries` say exactly when everyone has left, and
  `LlcBarrier.SecondEntryLeavesOneBehind` gives the run.
- The measured bytes of a call do not say which call it was. The transcript of the accepted loads determines them if
  and only if the calls agree in kind, one by one (`Measurement.TranscriptDetermines`);
  `Measurement.DifferentLoadsOneTranscript` gives two accepted continuations with one transcript.
- A page-table entry can be loaded over an entry that the walk to it reads. A loaded leaf is found if and only if that
  is not so (`PageTable.LeafFoundExactly`, `PageTable.SharedTableLeaf`); otherwise the hardware takes it for a leaf of a
  higher level (`PageTable.LeafAtHigherLevel`).
- `filter_compat` marks a node for deletion by its depth and uses 999 for none, so a node at depth 999 is deleted
  whatever it holds (`CompatFilter.FiltersExactly`, `CompatFilter.DeepNodeIsLost`).

Accordingly the theorems about runs of the monitor come with the care that untrusted software takes. Access and disjoint
pages hold over every tame run: the pages of a thread that was deleted under a core are not given to another object
before the core exits. Counts, live owners and running enclaves hold over every careful run: no running thread is
deleted, and no enclave whose deletion wipes anything in use.

## Model

| member | source | states |
|---|---|---|
| `Fe.FeMul` | src/crypto/ed25519/fe.c:524-765 | for all limbs up to 1.65 * 2^26 and 1.65 * 2^25 no intermediate leaves int32 or int64, the limbs of the result are within 1.01 * 2^25 and 1.01 * 2^24, and its value is f g modulo p |
| `Fe.FeSq` | src/crypto/ed25519/fe.c:967-1127 | the same for f f, with the 55 shortened products of the source |
| `Fe.SquareBothWays` | src/crypto/ed25519/fe.c:982-1127 | fe_sq(f) and fe_mul(f, f) agree limb for limb |
| `Fe.FeSq2` | src/crypto/ed25519/fe.c:1130-1300 | the same for 2 f f, doubled before the carries |
| `Fe.SchoolbookValue` | src/crypto/ed25519/fe.c:691-700 | folding the upper columns back with 19, and doubling odd times odd, is multiplication modulo p |
| `Fe.MulColumnsSchoolbook` | src/crypto/ed25519/fe.c:581-700 | the hundred products of fe_mul are those columns |
| `Fe.SqColumnsAreMulColumns` | src/crypto/ed25519/fe.c:1006-1070 | the columns of fe_sq are the columns of fe_mul(f, f) |
| `Fe.CarryColumns` | src/crypto/ed25519/fe.c:712-765 | the twelve interleaved carries keep the value modulo p and end in tight limbs, for every column up to the bounds that the products reach |
| `Fe.FeAdd` | src/crypto/ed25519/fe.c:69-123 | limbwise sum without overflow, and the sum of the values |
| `Fe.FeSub` | src/crypto/ed25519/fe.c:1303-1357 | limbwise difference without overflow, and the difference of the values |
| `Fe.FeNeg` | src/crypto/ed25519/fe.c:836-878 | limbwise negation without overflow, and the negated value |
| `FeBytes.FeFromBytes` | src/crypto/ed25519/fe.c:293-360 | tight limbs whose value is the little-endian string without its top bit, modulo p |
| `FeBytes.EstimateQuotient` | src/crypto/ed25519/fe.c:1408-1419 | the chain of shifts from the top limb is exactly floor(h / p) |
| `FeBytes.TopLimbQuotient` | src/crypto/ed25519/fe.c:1361-1384 | the estimate 19 h9 / 2^25 is close enough for that quotient, the argument of the source's comment |
| `FeBytes.FeToBytes` | src/crypto/ed25519/fe.c:1386-1491 | the 32 bytes are the little-endian digits of h modulo p, in 0 .. p - 1 |
| `FeBytes.Recode` | src/crypto/ed25519/fe.c:1386-1491 | fe_tobytes after fe_frombytes reduces modulo p, and is the identity if and only if the string is below p |
| `FeBytes.FeIsNonzero` | src/crypto/ed25519/fe.c:468-520 | true if and only if f is nonzero modulo p |
| `FeBytes.FeIsNegative` | src/crypto/ed25519/fe.c:451-466 | the parity of f reduced modulo p |
| `FePow.FeInvert` | src/crypto/ed25519/fe.c:364-448 | z^(2^255 - 21) modulo p, every intermediate in limb bounds |
| `FePow.FePow22523` | src/crypto/ed25519/fe.c:881-964 | z^(2^252 - 3) modulo p, every intermediate in limb bounds |
| `FePow.SquareTimes` | src/crypto/ed25519/fe.c:386-398 | a loop of n squarings multiplies the exponent by 2^n |
| `Select.FeCmov` | src/crypto/ed25519/fe.c:126-188 | the mask and exclusive-or form selects g when b is 1 and keeps f when b is 0 |
| `Sc.Fold` | src/crypto/ed25519/sc.c:60-84 | adding a high limb times the digits of 2^252 - l twelve places lower keeps the value modulo l without overflow |
| `Sc.RoundPass` | src/crypto/ed25519/sc.c:120-152 | a pass of rounding carries keeps the value and bounds the limbs |
| `Sc.FloorPass` | src/crypto/ed25519/sc.c:238-273 | a pass of floor carries keeps the value and leaves digits in 0 .. 2^21 - 1 |
| `Sc.CarriedTop` | src/crypto/ed25519/sc.c:238-280 | after the first floor pass the thirteenth limb is 0 or -1, and folding it once more lands in 0 .. l - 1 |
| `Sc.Reduce` | src/crypto/ed25519/sc.c:60-313 | everything between loading and storing: the canonical residue modulo l, without overflow |
| `Sc.OrderIs` | src/crypto/ed25519/sc.c:28-31 | the modulus is 2^252 + 27742317777372353535851937790883648493 |
| `ScBytes.Load24Value` | src/crypto/ed25519/sc.c:36-59 | the shifts and masks split the 64 bytes into 24 limbs of the same value |
| `ScBytes.Load12Value` | src/crypto/ed25519/sc.c:363-398 | the same for 32 bytes and 12 limbs |
| `ScBytes.StoreValue` | src/crypto/ed25519/sc.c:315-346 | the 32 bytes stored have the value of the limbs |
| `ScProduct.ProductValue` | src/crypto/ed25519/sc.c:447-469 | limbs that are the columns of a product have the product of the values |
| `ScOps.MulAddColumns` | src/crypto/ed25519/sc.c:447-470 | the 23 columns as written have the value a b + c, within int64 |
| `ScOps.ScReduce` | src/crypto/ed25519/sc.c:25-347 | in place, for all 64 bytes: the first half becomes s modulo l, in 0 .. l - 1, and the rest is unchanged |
| `ScOps.ScMulAdd` | src/crypto/ed25519/sc.c:351-809 | for all 32-byte strings: (a b + c) modulo l, in 0 .. l - 1 |
| `ScOps.TopByte` | src/crypto/ed25519/verify.c:54-56 | a reduced scalar has its top three bits clear |
| `Slide.Propagate` | src/crypto/ed25519/ge.c:44-51 | the carry loop adds 2^k to the bits above, and what it does when the carry runs off index 255 |
| `Slide.Absorb` | src/crypto/ed25519/ge.c:34-57 | one nonzero bit becomes an odd digit followed by four zeros, and the value is kept |
| `Slide.SlideDigits` | src/crypto/ed25519/ge.c:25-58 | every digit is 0 or odd and at most 15, nonzero digits are five apart, and the digits add up to the scalar if and only if no carry is lost, a recurrence on its bits; none is for any scalar below 2^255 |
| `Slide.RecodingExactly` | src/crypto/ed25519/ge.c:25-58 | the carry is lost exactly for the scalars that have no digits of that form at all |
| `Slide.TopWindow` | src/crypto/ed25519/ge.c:34-57 | of the scalars that have only their top five bits, exactly the odd multiples of 2^251 from 17 on lose the carry |
| `Slide.RecodingUnique` | src/crypto/ed25519/ge.c:25-58 | digits of that form that end in four zeros are determined by their value modulo 2^n |
| `Slide.AllOnes` | src/crypto/ed25519/ge.c:44-51 | the scalar 2^256 - 1 has no such digits, and its carry falls off index 255 |
| `Radix16.Recode` | src/crypto/ed25519/ge.c:386-409 | for a[31] at most 127 the digits lie in -8 .. 8 and add up to the scalar |
| `Radix16.HexParts` | src/crypto/ed25519/ge.c:412-433 | the odd and the even digits, the odd ones times 16, make up the scalar |
| `Edwards.CurveConstant` | src/crypto/ed25519/ge.c:133-135 | the curve constant is -121665 / 121666 modulo p |
| `Edwards.AddFormula` | src/crypto/ed25519/ge.c:9-22 | the completed coordinates of ge_add stand for the sum of the points, by the affine addition law |
| `Edwards.DoubleFormula` | src/crypto/ed25519/ge.c:254-271 | those of ge_p2_dbl stand for the double of a point of the curve |
| `PointMath.SumUnique` | src/crypto/ed25519/ge.c:5-22 | the addition law determines the sum modulo p |
| `Ge.GeAdd` | src/crypto/ed25519/ge.c:5-22 | the representation of p + q, with every multiplication in its limb bounds |
| `Ge.GeSub` | src/crypto/ed25519/ge.c:437-455 | the representation of p - q, likewise |
| `Ge.GeMadd` | src/crypto/ed25519/ge.c:184-200 | p + q for a table entry q, likewise |
| `Ge.GeMsub` | src/crypto/ed25519/ge.c:203-220 | p - q for a table entry q, likewise |
| `Ge.GeP2Dbl` | src/crypto/ed25519/ge.c:254-271 | 2 p for a point of the curve, likewise |
| `Ge.GeP3Dbl` | src/crypto/ed25519/ge.c:282-290 | 2 p for a point of the curve in extended coordinates, likewise |
| `Ge.GeP1P1ToP2` | src/crypto/ed25519/ge.c:223-231 | the same point, within limb bounds |
| `Ge.GeP1P1ToP3` | src/crypto/ed25519/ge.c:235-244 | the same point, with T = X Y / Z, within limb bounds |
| `Ge.GeP3ToCached` | src/crypto/ed25519/ge.c:293-307 | the same point, within limb bounds, and the constant is 2 d |
| `Select.Equal` | src/crypto/ed25519/ge.c:333-341 | the sign bit of (b ^ c) - 1 is 1 if and only if b equals c |
| `Select.Negative` | src/crypto/ed25519/ge.c:343-347 | the sign bit of the 64-bit extension is 1 if and only if b is negative |
| `Select.SelectEntry` | src/crypto/ed25519/ge.c:356-375 | the chain of conditional moves yields the entry that stands for b times the row's point, for b in -8 .. 8 |
| `ScalarMult.OddTable` | src/crypto/ed25519/ge.c:67-99 | the eight entries stand for A, 3 A, ..., 15 A |
| `ScalarMult.Evaluate` | src/crypto/ed25519/ge.c:101-129 | the doubling loop computes the sum of digits times powers of two, for both scalars |
| `ScalarMult.GeDoubleScalarMult` | src/crypto/ed25519/ge.c:60-130 | a A + b B for all scalars that have a recoding, so for all below 2^255; no limb leaves its bounds in any iteration |
| `ScalarMult.GeScalarMultBase` | src/crypto/ed25519/ge.c:377-434 | a B for all a with a[31] at most 127; no limb leaves its bounds in any iteration |
| `Root.RootOfMinusOne` | src/crypto/ed25519/ge.c:137-139 | the constant squares to -1 modulo p |
| `Root.CandidateWorks` | src/crypto/ed25519/ge.c:152-161 | if u / v has a square root, then u v^3 (u v^7)^((p - 5) / 8) is a root of u / v or of -u / v |
| `Root.CurveEquation` | src/crypto/ed25519/ge.c:147-151 | v x^2 = u holds if and only if (x, y) is on the curve |
| `PointCoding.SquareRoot` | src/crypto/ed25519/ge.c:152-173 | finds a root of u / v, and fails only if there is none |
| `PointCoding.GeFromBytesNegate` | src/crypto/ed25519/ge.c:141-181 | an accepted point is on the curve, has T = X Y and the encoded y, and a nonzero x of the opposite parity to the sign bit; a string is refused only if there is no such point |
| `PointCoding.DecodedUnique` | src/crypto/ed25519/ge.c:141-181 | a string decodes to at most one point |
| `PointCoding.EncodedIsDecoded` | src/crypto/ed25519/ge.c:458-467 | decoding the encoding of -a gives a |
| `PointCoding.GeToBytes` | src/crypto/ed25519/ge.c:458-467 | the encoding of the affine point: y modulo p with the parity of x as top bit |
| `PointCoding.GeP3ToBytes` | src/crypto/ed25519/ge.c:321-330 | the same for extended coordinates |
| `Sha512.RotationsAgree` | src/crypto/ed25519/sha512.c:62-91 | the macros, with their shifts, are the rotations of section 4.1.3 of FIPS 180-4, for all words |
| `Sha512.Rnd` | src/crypto/ed25519/sha512.c:112-116 | a round with rotated arguments is the register-shifting round of FIPS 180-4, section 6.4.2 |
| `Sha512.AllRounds` | src/crypto/ed25519/sha512.c:96-127 | ten turns of eight rotated rounds are the 80 rounds of the standard, on its message schedule |
| `Sha512.Compress` | src/crypto/ed25519/sha512.c:91-139 | the state becomes the standard's intermediate hash value after one more block |
| `Sha512.Context.constructor` | src/crypto/ed25519/sha512.c:147-162 | the context of the empty message |
| `Sha512.Context.Update` | src/crypto/ed25519/sha512.c:171-210 | however the input is split across calls, the context is that of the bytes given so far |
| `Sha512.Context.Final` | src/crypto/ed25519/sha512.c:218-265 | the digest of the standard for every message below 2^64 bits; beyond, the digest with a wrapped length |
| `Sha512Spec.PaddingAgrees` | src/crypto/ed25519/sha512.c:229-256 | the padding written is that of FIPS 180-4, section 5.1.2, for every message below 2^64 bits |
| `Sha512Constants.CubeFractions` | src/crypto/ed25519/sha512.c:15-58 | each of the eighty constants is the first 64 bits of the fraction of the cube root of its prime: k^3 <= 2^192 p < (k + 1)^3 |
| `Sha512Spec.SquareFractions` | src/crypto/ed25519/sha512.c:147-162 | the initial state is the same for square roots |
| `Sha512Example.AbcDigest` | src/crypto/ed25519/sha512.c:91-265 | the digest of "abc" is the one that FIPS 180-4 gives, worked out through all 80 rounds |
| `Sha512.Hash` | src/crypto/ed25519/sha512.c:267-275 | the one-shot digest |
| `Signature.MultiplesGroup` | src/crypto/ed25519/ge.c:60-66 | when A is itself a multiple of B, the combinations of A and B meet the hypotheses of the scalar multiplications |
| `Signature.CreatePrivateKey` | src/crypto/ed25519/keypair.c:11-16 | every byte: the SHA-512 digest of the seed with three low bits and the top bit clear and the next one set, so the scalar is 2^254 plus the hash modulo 2^254 rounded down to a multiple of 8 |
| `Signature.ComputePublicKey` | src/crypto/ed25519/keypair.c:5-9 | the encoding of the secret scalar times the base point |
| `Signature.Sign` | src/crypto/ed25519/sign.c:7-31 | for every 64-byte private key: r is the hash of the second half of the key and the message, h that of R, the public key and the message, both modulo l; R encodes r B and S = h a + r modulo l, in canonical form |
| `Signature.NonceInput` | src/crypto/ed25519/sign.c:14-17 | what is hashed for r determines the second half of the key and the message |
| `Signature.ChallengeInput` | src/crypto/ed25519/sign.c:23-27 | what is hashed for h determines R, the public key and the message |
| `Signature.ConstTimeEqual` | src/crypto/ed25519/verify.c:6-45 | true if and only if all 32 bytes agree |
| `Signature.Verify` | src/crypto/ed25519/verify.c:47-77 | accepts if and only if S is below 2^253, the key decodes to a point A and R encodes h A + S B, where h is the hash of R, the key and the message modulo l |
| `Signature.SignatureVerifies` | src/crypto/ed25519/verify.c:47-77 | a signature made with a private key satisfies that condition under its public key |
| `Signature.SignThenVerify` | src/crypto/ed25519/sign.c:7-31 | computing the public key, signing and verifying always accepts |
| `Measurement.LoadingOrder` | src/sm_types.h:48-54 | over every accepted sequence of loads the handler comes first and once, then page tables, then pages and threads, a page first |
| `Measurement.TranscriptDetermines` | src/api/enclave_create.c:50-63 | two accepted sequences of loads with one transcript are equal, parameters included, if and only if they make the same calls in the same order |
| `Measurement.DifferentLoadsOneTranscript` | src/api/thread_load.c:40-90 | after any accepted loads that reach a page, in an enclave whose range is all addresses, a page and a thread, or a thread and a page: both accepted, different, with one transcript |
| `Measurement.AcceptedPrefix` | src/api/enclave_load_page_table.c:62-84 | there are such loads: a handler, a table of each level and a page |
| `Measurement.RangeIs` | src/api/enclave_load_page.c:63-68 | for a range of 2^k bytes an address is accepted if and only if it and the address a page above it lie in the range |
| `Measurement.AclIs` | src/api/enclave_load_page.c:82-87 | the tests of access bits are those by which the hardware tells faulting entries and leaves |
| `Measurement.Enclave.constructor` | src/api/enclave_create.c:47-63 | the hash has absorbed ev_base, ev_mask, num_mailboxes and debug, in this order |
| `Measurement.Enclave.LoadHandler` | src/api/enclave_load_handler.c:27-92 | accepted only in the first state; extends the transcript by the code; otherwise nothing changes |
| `Measurement.Enclave.LoadPageTable` | src/api/enclave_load_page_table.c:37-114 | accepted only in its two states, in the enclave's range, at a level up to 3, with valid access bits and no leaf above level 0; extends the transcript by address, level and access bits; otherwise nothing changes |
| `Measurement.Enclave.LoadPage` | src/api/enclave_load_page.c:38-125 | accepted only in its two states, in the enclave's range, with the access bits of a leaf; extends the transcript by address, access bits and contents; otherwise nothing changes |
| `Measurement.Enclave.LoadThread` | src/api/thread_load.c:40-90 | accepted only once data is loaded; extends the transcript by entry point, stack and timer limit; otherwise nothing changes |
| `Measurement.Enclave.Initialize` | src/api/enclave_init.c:25-40 | the measurement is the SHA-512 digest of the transcript of the accepted calls |
| `Attestation.Attest` | src/api/enclave_init.c:42-63 | the enclave's private key comes from the first half of SHA-512 of the monitor's key and the measurement, the public key belongs to it, and the attestation is the monitor's signature of SHA-512 of the measurement and that public key |
| `Attestation.HashedInputs` | src/api/enclave_init.c:43-58 | what is hashed for the enclave's key determines the monitor's key and the measurement, and what is hashed for the certificate the measurement and the enclave's public key |
| `Attestation.AttestThenVerify` | src/api/enclave_init.c:54-63 | a verifier that recomputes that digest always accepts the attestation under the monitor's public key |
| `LlcBarrier.CriticalSection` | src/api/region_flush.c:35-95 | in every run, with any extra interrupts, while an initiator is in its critical section every other core spins in handle_llc_changes |
| `LlcBarrier.OneInitiator` | src/api/region_cache_partitionning.c:61-72 | in every run there is at most one initiator |
| `LlcBarrier.NobodyLeftBehind` | src/common/handle_llc_changes.c:9-30 | at the end of an episode nobody spins if and only if left has counted every entry of the episode and everyone left over from before |
| `LlcBarrier.RepeatedEntries` | src/common/handle_llc_changes.c:9-30 | in an episode that began with nobody spinning, every other core has entered at its end, and nobody spins if and only if left exceeds the number of cores by the number of repeated entries |
| `LlcBarrier.EveryoneLeft` | src/common/handle_llc_changes.c:21-33 | if each core enters at most once an episode, nobody spins when busy is about to be cleared or is clear |
| `LlcBarrier.NeverStuck` | src/api/region_cache_partitionning.c:83-142 | over every such run, while there is an initiator some core can take a step that changes something |
| `LlcBarrier.RankFalls` | src/api/region_cache_partitionning.c:83-142 | and every such step lowers a bound on the steps that remain |
| `LlcBarrier.EpisodeEnds` | src/api/region_flush.c:35-95 | so every episode can be run to its end, with nobody left spinning |
| `LlcBarrier.SecondEntryLeavesOneBehind` | src/common/handle_llc_changes.c:15-30 | a run of three cores in which a second entry leaves one core spinning when busy is cleared |
| `LlcBarrier.NextEpisodeIsStuck` | src/common/handle_llc_changes.c:15-30 | the next episode can then reach a state that no step changes |
| `LlcPartition.SlicesDisjoint` | src/api/region_cache_partitionning.c:28-52 | the slices of a partitioning that fits are disjoint and inside the 1024 sets |
| `LlcPartition.WordRoundTrip` | src/api/region_cache_partitionning.c:115-115 | the control word decodes back to region, base and size |
| `LlcPartition.ControlBits` | src/api/region_cache_partitionning.c:115-115 | the sum is the or of the three fields at bits 14, 4 and 0 |
| `LlcPartition.Llc.constructor` | src/init/init.c:48-56 | every region starts with sixteen sets |
| `LlcPartition.Llc.Reprogram` | src/api/region_cache_partitionning.c:109-117 | programming only from the first modified region on gives the same table as programming all |
| `LlcPartition.Llc.Repartition` | src/api/region_cache_partitionning.c:24-149 | exactly which requests get which result; the slices are then those of the request and otherwise unchanged, and region 0 keeps its slice |
| `LlcPartition.RunKeepsRegionZero` | src/api/region_cache_partitionning.c:54-59 | over every run of requests the sizes go on fitting and region 0 keeps its slice |
| `MonitorState.AddressIs` | src/sm.h:41-59 | an aligned address in RAM is determined by its region and its page |
| `MonitorState.MemoryMap` | src/sm.h:41-63 | the region, the page and the alignment of every address in RAM |
| `Monitor.RegionsToBitmap` | platform/platform_helper.c:3-12 | the loop of shifts and ors computes the number whose bits are the flags |
| `Monitor.BitmapToRegions` | platform/platform_helper.c:14-20 | its inverse: flag r is bit r, and the map that made a bitmap comes back |
| `Monitor.SecurityMonitor.constructor` | src/init/init.c:22-41 | the initial state: region 0 is the monitor's, all others are untrusted and reachable, the invariant holds and the books balance |
| `Monitor.SecurityMonitor.LockMetadata` | src/common/lock_region_iff_valid_metadata.c:3-59 | succeeds if and only if the address is that of a live enclave, or thread, as asked; reports an invalid value if and only if it is misaligned or outside RAM |
| `Monitor.SecurityMonitor.LockFree` | src/common/lock_region_iff_free_metadata_pages.c:3-66 | succeeds if and only if all pages are free and inside one metadata region, with each error case |
| `Monitor.SecurityMonitor.UpdateProtection` | platform/platform_memory_protection_common.c:3-19 | bit r of one core's bitmaps says whether untrusted software, or the enclave on the core, owns region r; nothing else changes |
| `Monitor.SecurityMonitor.UpdateRegions` | platform/platform_memory_protection_common.c:21-30 | one flag of one map changes and the calling core's bitmaps follow |
| `Monitor.SecurityMonitor.RegionAssign` | src/api/region_assign.c:3-82 | succeeds if and only if the region is free and the new owner is untrusted software or a live enclave; its flag is then set and the calling core up to date; the whole new state, or the error and no change; keeps the invariant, balanced books and attached cores |
| `Monitor.SecurityMonitor.RegionBlock` | src/api/region_block.c:3-103 | succeeds if and only if the caller is live and owns the region; the calling core then no longer reaches it; the whole new state, or the error and no change; keeps the invariant, balanced books and attached cores |
| `Monitor.SecurityMonitor.RegionUpdate` | src/api/region_update.c:3-28 | afterwards the calling core reaches exactly what untrusted software and its enclave own; nothing else changes and the invariant is kept |
| `Monitor.SecurityMonitor.RegionFree` | src/api/region_free.c:3-72 | run without interruption, frees a blocked region if and only if no core reaches it |
| `Monitor.SecurityMonitor.RegionMetadataCreate` | src/api/region_metadata_create.c:3-57 | succeeds if and only if the region is free; it becomes a metadata region with its reserved pages marked |
| `Monitor.SecurityMonitor.CreateEnclave` | src/api/enclave_create.c:5-75 | succeeds if and only if its pages are free; marks them and adds the enclave, or the error and no change |
| `Monitor.SecurityMonitor.LoadThread` | src/api/thread_load.c:3-97 | succeeds if and only if the enclave is live, has data loaded and is not initialized, and the pages are free; marks them, adds the thread and counts it, or the error and no change |
| `Monitor.SecurityMonitor.DeleteThread` | src/api/thread_delete.c:3-73 | exactly when it succeeds; frees the pages, removes the thread and uncounts it, or the error and no change; keeps the invariant and balanced books, and attached cores if and only if no core runs the thread |
| `Monitor.SecurityMonitor.DeleteEnclave` | src/api/enclave_delete.c:3-97 | as written, with the loop that wipes its own flags: succeeds if and only if the enclave is live and has no threads; the whole new state; keeps the invariant, and balanced books and attached cores if and only if the wipe spares them |
| `Monitor.SecurityMonitor.BlockRegions` | src/api/enclave_delete.c:69-79 | the loop blocks the first region of the enclave only, and leaves an empty page map and no object in its metadata region |
| `Monitor.SecurityMonitor.EnterEnclave` | src/api/enclave_enter.c:6-173 | succeeds if and only if the enclave is live and initialized and the thread is one of its own; the core then reaches exactly the enclave's regions through memrbm and saves its own bitmap |
| `Monitor.SecurityMonitor.ExitEnclave` | src/api/enclave_exit.c:3-110 | the core returns to untrusted software with the saved bitmap, or with what it finds when its thread is gone; keeps the invariant if the thread is live or the bitmap empty |
| `MonitorCalls.AssignExactly` | src/api/region_assign.c:18-73 | when region_assign succeeds, and every change it makes |
| `MonitorCalls.BlockExactly` | src/api/region_block.c:19-94 | when region_block succeeds, and every change it makes; a region of another owner is refused with ACCESS_DENIED |
| `MonitorCalls.MetadataCreateExactly` | src/api/region_metadata_create.c:18-50 | the same for region_metadata_create |
| `MonitorCalls.EnclaveCreateExactly` | src/api/enclave_create.c:26-70 | the same for enclave_create: the new enclave is empty and not loaded |
| `MonitorCalls.ThreadLoadExactly` | src/api/thread_load.c:26-90 | the same for thread_load: refused once the enclave is initialized |
| `MonitorCalls.ThreadDeletes` | src/api/thread_delete.c:19-66 | the same for thread_delete |
| `MonitorCalls.EnterExactly` | src/api/enclave_enter.c:27-80 | the same for enclave_enter: refused before the enclave is initialized |
| `MonitorCalls.ExitExactly` | src/api/enclave_exit.c:3-110 | the exit of a live thread always succeeds and leaves no access through memrbm |
| `MonitorLife.RegionLife` | src/api/region_free.c:34-65 | for every call: the only ways a region goes from free to owned, to blocked and back, and who can take them |
| `MonitorLife.CoreLife` | src/api/enclave_enter.c:27-80 | for every call: a core is changed only by its own calls, and starts to run only an initialized enclave |
| `MonitorLife.EnclaveLife` | src/sm_types.h:48-54 | for every call: how an enclave comes to be, becomes initialized, gets and loses threads and regions, and ends |
| `MonitorLife.ThreadLife` | src/api/thread_load.c:26-90 | for every call: a thread is added only to an enclave that is being loaded, and keeps its owner |
| `MonitorLife.InitializedIsSealed` | src/api/thread_load.c:40-45 | over every tame run without deletions of enclaves an initialized enclave stays so and gets no new thread |
| `MonitorLife.OnlyInitializedRun` | src/api/enclave_enter.c:45-49 | in every careful run what runs on a core is untrusted software or an initialized enclave |
| `MonitorInv.ProtectKeeps` | platform/platform_memory_protection_common.c:3-19 | recomputed bitmaps give a core what its owner owns and no more |
| `MonitorInv.ObjectsDisjoint` | src/common/lock_region_iff_free_metadata_pages.c:19-62 | live enclaves and threads occupy disjoint page ranges above the reserved pages |
| `MonitorBooks.ThreadDeleteExactly` | src/api/thread_delete.c:42-66 | as written, the call leaves every core running something live if and only if no core runs the thread |
| `MonitorBooks.RunningThreadDeleted` | src/api/thread_delete.c:42-66 | deleting the thread on a core succeeds and leaves the core as it was; the enclave can then be deleted under the core if and only if this was its last thread |
| `MonitorInv.CheckIsLive` | src/common/lock_region_iff_valid_metadata.c:3-59 | in every state of the invariant the check of an object succeeds if and only if it is live |
| `MonitorBooks.EnclaveDeleteSucceeds` | src/api/enclave_delete.c:32-48 | a live enclave can be deleted if and only if it has no threads |
| `MonitorInv.EnclaveDeleteKeeps` | src/api/enclave_delete.c:64-88 | as written, deleting an enclave keeps access confined, pages disjoint and scans sound, whatever is wiped |
| `MonitorBooks.EnclaveDeleteExactly` | src/api/enclave_delete.c:69-88 | it keeps owners and counts right if and only if the enclave owns no region, or owns one, no other enclave of its metadata region owns any, and every thread is on the same side of that region's border as its enclave |
| `MonitorBooks.EnclaveDeleteAttached` | src/api/enclave_delete.c:69-88 | it leaves every core running something live if and only if the enclave owns no region or no core runs anything of its metadata region |
| `MonitorBooks.IntendedKeeps` | api/api.h:36-40 | the documented call, which blocks every region of the enclave and frees its pages only, keeps everything |
| `MonitorBooks.DeleteAsIntended` | src/api/enclave_delete.c:69-88 | for an enclave without regions the call as written is the documented one |
| `MonitorInv.StrayExitExactly` | src/api/enclave_exit.c:39-72 | the exit of a core keeps the invariant if and only if it is refused or takes an empty bitmap |
| `MonitorInv.DetachedBlock` | src/api/region_block.c:64-72 | a core whose enclave is gone is refused by region_block |
| `MonitorRuns.BootInv` | src/init/init.c:22-41 | the invariant holds after sm_init, for any number of cores |
| `MonitorRuns.NextInv` | api/api.h:20-260 | every call keeps the invariant, both deletions included, unless a core exits whose thread's pages have been reused |
| `MonitorRuns.NextBooks` | api/api.h:20-260 | every careful call keeps the books balanced and every core running something live |
| `MonitorRuns.RunInv` | api/api.h:20-260 | so does every tame run keep the invariant |
| `MonitorRuns.RunBooks` | api/api.h:20-260 | and every careful run the books and the cores |
| `MonitorRuns.AlwaysDefined` | src/api/enclave_exit.c:3-110 | in every tame run an allowed call finds every object that it looks up |
| `MonitorRuns.NeverDetached` | src/api/enclave_exit.c:39-41 | in every careful run no core exits whose thread is gone |
| `MonitorRuns.AccessIsConfined` | platform/platform_memory_protection_common.c:3-30 | in every tame run a core reaches through mmrbm only what untrusted software owns or is blocked, and through memrbm only what the enclave on it owns or is blocked |
| `MonitorRuns.AccessorIsLive` | platform/platform_memory_protection_untrusted.c:36-42 | in every careful run a core that reaches anything through memrbm runs a live enclave |
| `MonitorRuns.MonitorMemoryIsUnreachable` | src/api/region_metadata_create.c:27-50 | in every tame run free, monitor and metadata regions are reachable from no core |
| `MonitorRuns.OneOwner` | src/api/region_assign.c:33-73 | in every tame run no region is in two ownership maps |
| `MonitorRuns.AllocatorIsSound` | src/common/lock_region_iff_free_metadata_pages.c:19-62 | in every tame run live objects occupy disjoint pages above the reserved ones |
| `MonitorRuns.BooksBalance` | src/api/thread_load.c:59-85 | in every careful run every thread's owner is live, num_threads counts the owned threads, and every region in use has a live owner whose map has it |
| `MonitorRuns.RunningEnclaveStays` | src/api/enclave_delete.c:33-36 | in every careful run an enclave that runs on a core cannot be deleted |
| `MonitorExample.EnclaveRuns` | src/api/enclave_enter.c:6-173 | a careful run from the start that reaches an enclave with one thread on core 0 of two |
| `MonitorExample.EnclaveDeletedUnderCore` | src/api/thread_delete.c:42-66 | it goes on, by two calls of core 1, to a core whose enclave is gone |
| `MonitorExample.DetachedExitBreaksConfinement` | platform/platform_memory_protection_enclave.c:3-15 | it can also go on to a core that reaches the monitor's own region: the thread is deleted, its pages are given to a new enclave and the core exits |
| `MonitorExample.RegionLeftBehind` | src/api/enclave_delete.c:69-88 | a run in which the deletion of an enclave with two regions leaves one owned by an enclave that is gone |
| `MonitorRuns.BlockedIsNotRegained` | src/api/region_block.c:33-94 | no tame step of any core gives any core access to a region that is blocked |
| `MonitorRuns.FreeIsSound` | src/api/region_free.c:34-65 | in every tame run, under every interleaving, when the scan of region_free ends all cores lack access at once |
| `Sv39.VirtualParts` | platform/parameters.h:97-101 | the three page numbers and the offset make up the low 39 bits of every address |
| `Sv39.SamePage` | platform/parameters.h:97-101 | addresses have the same page numbers if and only if they lie in one page modulo 2^39 |
| `PageTable.IndexIs` | src/common/load_page_table_entry.c:31-32 | the loader's index at each level is the page number of the architecture |
| `PageTable.EntriesDistinct` | src/common/load_page_table_entry.c:31-32 | two entries share a word if and only if they are the same entry of the same table |
| `PageTable.EntryFields` | src/common/load_page_table_entry.c:52-54 | the entry written holds the page number and the access bits, and gives them back |
| `PageTable.Tables.LoadPageTableEntry` | src/common/load_page_table_entry.c:15-59 | for any table contents every entry read or written lies in a region of the enclave; for a level of a table it succeeds if and only if the whole path is owned and made of pointers; exactly one entry changes, or none |
| `PageTable.LoadableWalks` | src/common/load_page_table_entry.c:30-50 | a path that can be loaded is an Sv39 walk |
| `PageTable.LoadThenWalk` | src/common/load_page_table_entry.c:15-57 | the walk of the address then reaches exactly the physical address and the access bits at that level, unless the entry written is one that the walk read above it |
| `PageTable.LoadThenTranslate` | src/common/load_page_table_entry.c:15-57 | with that guard, after a leaf is loaded the hardware maps every address of its page, and of its large page at higher levels, to the physical page with its offset |
| `PageTable.LeafAtHigherLevel` | src/common/load_page_table_entry.c:30-56 | without it the hardware takes the leaf at a higher level: it faults if the page is misaligned there, and maps the larger page otherwise |
| `PageTable.TranslateUnchanged` | src/common/load_page_table_entry.c:51-55 | every translation that does not read the entry written is unchanged |
| `PageTable.LeafFoundExactly` | src/common/load_page_table_entry.c:30-56 | for every leaf the walk finds the entry if and only if that is so, and otherwise fails |
| `PageTable.PointerRedirects` | src/common/load_page_table_entry.c:30-56 | for a pointer written over such an entry the walk goes on in the new table, one level below the first read |
| `PageTable.DistinctTables` | src/common/load_page_table_entry.c:30-50 | distinct tables on the path are enough for the entry to be found |
| `PageTable.LoadKeepsWalks` | src/common/load_page_table_entry.c:51-55 | every walk that does not read the entry written is unchanged |
| `PageTable.SharedTable` | src/common/load_page_table_entry.c:30-56 | a table that points to itself: a pointer loaded at level 1 is not found |
| `PageTable.SharedTableLeaf` | src/common/load_page_table_entry.c:30-56 | in the same table a leaf loaded at level 0 is not found |
| `DeviceTree.ScanItems` | src/kernel/fdt.c:46-103 | on every well-formed block the scan ends, returns just past the end token, and leaves the array with the deleted nodes overwritten and every other word kept |
| `DeviceTree.ScanNode` | src/kernel/fdt.c:79-92 | the same for one node, deleted or not |
| `DeviceTree.SameLength` | src/kernel/fdt.c:88-90 | deletion changes no lengths, so the rest of the block stays in place |
| `DeviceTree.NulBytes` | src/kernel/fdt.c:82-86 | the end of a name is found in a word if and only if one of its four bytes is zero |
| `DeviceTree.ExampleBlock` | src/kernel/fdt.h:24-28 | the words of a node with a property and a subnode, with tokens, lengths and padding |
| `CompatFilter.ScanReports` | src/kernel/fdt.c:62-102 | for all callbacks, they are called exactly for the events of the tree in depth-first order |
| `CompatFilter.NopsAreSilent` | src/kernel/fdt.c:64-67 | erased words report nothing |
| `CompatFilter.Marks` | src/kernel/fdt.c:536-559 | the depth is restored, and a node is marked if and only if one of its own properties matches |
| `CompatFilter.FiltersExactly` | src/kernel/fdt.c:536-559 | exactly the matching nodes are erased if and only if no unmatched node stands at depth 999 outside a matching one |
| `CompatFilter.DeepNodeIsLost` | src/kernel/fdt.c:550-559 | the innermost of 999 nested nodes is erased although none matches |
| `CompatFilter.BlankedReadsAsPruned` | src/kernel/fdt.c:64-67 | a tree with its matching nodes erased has the events of the tree without them and their subtrees |
| `CompatFilter.ScannedWellFormed` | src/kernel/fdt.c:46-103 | a scan keeps a block well formed, whatever it deletes |
| `CompatFilter.OuterMatch` | src/kernel/fdt.c:536-559 | a matching property outside every node keeps everything from being deleted |
| `CompatFilter.FilterThenScan` | src/kernel/fdt.c:561-576 | rescanning the filtered array calls the callbacks exactly for the tree without the matching nodes and their subtrees, for every shallow block |
| `CompatFilter.PrunedIsClean` | src/kernel/fdt.c:561-576 | no node of that tree matches, and it is the original if and only if none did |
| `CompatFilter.FilterCompat` | src/kernel/fdt.c:561-576 | in place, every word outside the erased nodes is kept; in a shallow block exactly the matching nodes are erased, or nothing if a property outside every node matches |

## Left out

- Field and group elements are values: the C functions allow output and input to overlap, and overlap is not modelled.
- The unrolled carry chains of sc.c are loops over the same indices in the same order.
- That p is prime, the group laws, the order of the base point and the contents of the precomputed tables are hypotheses.
- Monitor.SecurityMonitor.DeleteEnclave: the contents of memory are modelled only as far as the monitor's records go.
- Monitor.SecurityMonitor.DeleteThread: when the owner is gone, the decrement of a counter in its former pages is not modelled.
- Monitor.SecurityMonitor.CreateEnclave: num_mailboxes is taken small enough that the size arithmetic of src/sm.h:123-127 does not wrap.
- Monitor.SecurityMonitor.RegionFree: the method is one uninterrupted run; its interleavings are in MonitorRuns.FreeIsSound.
- Monitor.SecurityMonitor.EnterEnclave: registers, program counters, the timer and the resumption of an interrupted thread are not modelled.
- Monitor.SecurityMonitor.ExitEnclave: the copying and clearing of registers is not modelled, nor what an exit of a core whose thread is gone writes into the thread's former pages.
- MonitorRuns.RunningEnclaveStays: for careful runs; MonitorBooks.RunningThreadDeleted and MonitorBooks.EnclaveDeleteAttached have the others.
- MonitorRuns.NextInv: the loading calls appear in runs only through the state they leave an enclave in; Measurement has their order.
- MonitorRuns.RunInv: for tame runs; MonitorInv.StrayExitExactly says when the one step that is not keeps the invariant.
- MonitorRuns.AccessIsConfined: for tame runs; MonitorExample.DetachedExitBreaksConfinement is a run that is not.
- MonitorRuns.MonitorMemoryIsUnreachable: for tame runs, for the same reason.
- MonitorRuns.AllocatorIsSound: for tame runs; after an exit that is not tame the later steps are not followed.
- MonitorExample.EnclaveRuns: the sizes of the metadata structures, which depend on the compiler, are taken small enough that two enclaves and a thread fit into a region; the other runs of MonitorExample too.
- Locks are modelled only where a property needs them: calls are atomic, a region that is being scanned is locked, and nothing is said about lock words after a failing call.
- LlcPartition.Llc.constructor: the writes to the control register are commented out in sm_init, and the register is taken to start with the slices that they would set.
- LlcPartition.Llc.Repartition: whether an enclave is seen running is an input, since src/api/region_cache_partitionning.c:95 reads the owner of core 0 only.
- PageTable.Tables.LoadPageTableEntry: the regions that the enclave owns are an input; level is below 2^31, so that its cast to int keeps it (its caller refuses levels above 3).
- Measurement.Enclave.Initialize: stops at the measurement; the keys and the certificate are in Attestation.Attest.
- Measurement.Enclave.LoadHandler: the checks of the physical address and its region are an input.
- Measurement.Enclave.LoadPageTable: the checks of the physical address, its owner and the tables above are an input.
- Measurement.Enclave.LoadPage: the checks of the physical addresses, their owners and the tables above are an input.
- Measurement.Enclave.LoadThread: the check of the thread's pages is an input; Monitor.SecurityMonitor.LoadThread has it.
- Sv39.VirtualParts: permission checks and the accessed and dirty bits of the translation are not modelled.
- DeviceTree.ScanItems: words are given by their big-endian values, and the address and size cells that the scanner passes to callbacks are not modelled.
- CompatFilter.FilterCompat: the header check of fdt_scan and the comparison of strings are left out; the test of a property is an input.
- The other devicetree queries, mailboxes, key exchange, seed generation, scalar addition, cache flushing, interrupts, CSRs, console, SBI calls, trap entry and C library functions are not modelled.
