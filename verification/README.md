# Curve448: a verified model

Curve448 offers X448 and Ed448 twice: a pure OCaml backend on 28-bit limbs and a C backend on words,
lanes and point structs. Both are stacks of fast forms that must equal simple mathematics. This project
models both stacks, the generators that write their kernels and tables, and the reader that turns
the generated kernels into indexed statements. It proves, layer by layer, that the fast forms compute
the mathematics and that the two backends agree.

Layers, bottom up:

- **Arithmetic and words**: `Arith`, `Congruence`, `Radix`, `Subdigits`, `Words`, `Wrappers`. A congruence
  carries its quotient as a witness; bit operations are digit by digit on two's complement integers.
- **The field modulo P = 2^448 - 2^224 - 1**: `Prime448`, `Field`, `Fe448Kernels`, `LimbBytes`, `Fe448`,
  `FieldOps` for OCaml; `NativeField` for C.
- **Scalars modulo L**: `Order`, `Folding`, `Sc448` (28-bit limbs), `Scalar448` (32-bit words), `Recode`.
- **The curve**: `Curve` (complete affine addition), `Group` (multiples), `Extended` (coordinate
  formulas), `Comb`, `TableSelect`, `Ge448`, `GeSelect`, `GeScalar`, `GeBytes` for OCaml, `NativeGe` for C,
  `BaseTables` for the table generator, `Encoding` for points as 57 octets.
- **Hashing**: `Sponge` (FIPS 202, sections 4, 5.1 and 6.2), `SpongeTrace`, `Keccak`, `KeccakState`,
  `KeccakBits` (section 3.2, bit by bit), `Shake256` (OCaml), `NativeShake` (C).
- **Protocols**: `Pruning`, `Ladder`, `X448Spec`, `Montgomery` (the curve X448 works on), `MontgomeryLadder`,
  `X448`, `NativeX448`; `Ed448Spec`, `Ed448`, `NativeEd448`, `Ed448Octets` (what both backends compute, on
  octets and integers alone).
- **Generated kernels**: `KernelProgram` and `KernelAnalysis` (straight-line programs and their interval
  analysis), `KernelSyntax`, `KernelRoundTrip`, `KernelText` (printer and parser), `KernelSsa` (indexed
  statements), `KernelNames`, `KernelExec`, `KernelFamilies`, `KernelBuild`, `KernelChain`, `KernelColumns`,
  `KernelProduct`, `KernelLinear`, `KernelReadable`, `KernelGenerated` (the builders and what they build).

Code that changes arrays and records in place is modelled by methods on arrays and classes. Each is
proved against a specification function, and the properties are proved of that function.

## Hypotheses

Mathematics that no program text can show stays an explicit hypothesis, named where it is used:

- `Field.Fermat`: a^(P-1) = 1 modulo P for every a that P does not divide (P is prime).
- `Curve.NonSquareD`: D = -39081 is not a square modulo P.
- `Group.Associative`: addition on the curve is associative.
- `Ed448Spec.OrderAt` with L, in `Ed448.Setting` and `NativeEd448.Setting`: L B is the identity.
- `Ed448Octets.ExactOrder`: only multiples of L take B to the identity (used only where a verdict is turned
  into arithmetic modulo L).
- `Ed448Spec.Exponent`: every curve point has order dividing 4 L (used for verification only).
- `Montgomery.Associative`, for the c at hand: the chord-and-tangent law on c v^2 = u^3 + 156326 u^2 + u is
  associative (used only for the statement that X448 is scalar multiplication). That the ladder step doubles
  and adds on that curve is proved.

The sponge and the signature scheme hold for any permutation of the state and any 114-octet hash;
`KeccakState` supplies Keccak-f[1600] in both forms. P and L are constants whose value is stated behind a
guard, so that only the lemmas that need 448-bit arithmetic see it; `Words.Bit` is guarded the same way.

The functions of `Ed448Spec`, `X448Spec`, `Ladder` and `KeccakState` are what the code of both backends is
proved equal to. What those functions are is said without them: `Ed448Octets` spells out keys, signatures and
verdicts, `MontgomeryLadder` the ladder, `KeccakBits` the permutation and `SpongeTrace` the hash.

## Model

| member | source | states |
|---|---|---|
| Fe448Kernels.Mul | lib/ocaml/fe448_kernels.ml:24-205 | For tight limbs, out may alias an input: the 16 results are within 2^27 + 2^5 and worth the product modulo P, and no intermediate leaves the 63-bit range. |
| Fe448Kernels.Sq | lib/ocaml/fe448_kernels.ml:208-386 | The same for the square, whose columns use doubled cross terms. |
| Fe448Kernels.Add | lib/ocaml/fe448_kernels.ml:389-501 | Tight limbs worth the sum modulo P after one round of parallel carries. |
| Fe448Kernels.Sub | lib/ocaml/fe448_kernels.ml:504-616 | Tight limbs worth the difference modulo P. |
| Fe448Kernels.MulSmall | lib/ocaml/fe448_kernels.ml:619-763 | For every k up to 2^16 in magnitude, tight limbs worth k times the operand modulo P after two rounds. |
| Fe448Kernels.Carry | lib/ocaml/fe448_kernels.ml:766-848 | Limbs up to 2^28 in magnitude become tight without changing their value modulo P. |
| Fe448Kernels.GoldenRatio | tools/gen_fe448_ocaml.py:9-21 | a b = (L + H) + (S - L) phi modulo P once the columns from 8 up are folded into the lower ones. |
| Fe448.ToBytes | lib/ocaml/fe448.ml:97-139 | Any tight signed element is written as the 56 little-endian bytes of its unique representative in [0, P), and no other byte changes. |
| Fe448.Equal | lib/ocaml/fe448.ml:152-156 | 1 exactly when the two tight elements are congruent modulo P. |
| Fe448.OfBytes | lib/ocaml/fe448.ml:81-93 | Any 56 bytes, values of P and above included, load as tight limbs congruent to their integer. |
| FieldOps.PowP34 | lib/ocaml/fe448.ml:178-206 | The addition chain raises every element to (P - 3) / 4 modulo P. |
| FieldOps.Invert | lib/ocaml/fe448.ml:209-215 | The result is z^(P-2) modulo P: the inverse of a nonzero z under Fermat, and 0 for 0. |
| Field.RootCandidateDecides | lib/ocaml/fe448.ml:216-232 | The candidate root of u / v is a root exactly when u / v is a square, for every u and every nonzero v. |
| FieldOps.SqrtRatio | lib/ocaml/fe448.ml:218-232 | Computes that candidate and returns 1 exactly when v x^2 = u modulo P. |
| Sc448.Fold | lib/ocaml/sc448.ml:68-87 | On any 33 normalised limbs the fold is exact as a number, so its dropped last carry was zero, and no column overflows. |
| Order.ThreeFolds | lib/ocaml/sc448.ml:62-67 | Three folds bring every 912-bit number below 2 L with its residue modulo L, so one subtraction finishes. |
| Sc448.ReduceWide | lib/ocaml/sc448.ml:105-109 | Any 33-limb number below 2^912 reduces to normalised limbs worth its residue modulo L. |
| Sc448.MulAdd | lib/ocaml/sc448.ml:153-166 | (a b + c) mod L for any a, b and c below 2^448. |
| Sc448.IsCanonical | lib/ocaml/sc448.ml:172-182 | 1 exactly when the 57-byte integer is below L. |
| Scalar448.ReduceWords | lib/c/native/scalar448.h:101-106 | The C folds and masked subtraction give the residue modulo L, every 64-bit accumulator and 32-bit store in range. |
| Scalar448.MulAdd | lib/c/native/scalar448.h:120-148 | (a b + c) mod L on 32-bit words for any a, b and c below 2^448. |
| Scalar448.ReduceDigestAgrees | lib/c/native/scalar448.h:109-117 | OCaml limbs and C words encode the same 57 bytes for every 114-byte digest: its residue modulo L. |
| Scalar448.MulAddAgrees | lib/c/native/scalar448.h:120-162 | Loading three byte strings, multiplying, adding and encoding agree byte for byte in the two radices, and equal (a b + c) mod L. |
| Recode.FromLimbs | lib/ocaml/sc448.ml:186-198 | 112 digits in [-8, 7], the last in [0, 4], that are worth the scalar. |
| Recode.FromWords | lib/c/native/scalar448.h:184-195 | The same from 32-bit words. |
| Curve.DenominatorsNotZero | test/reference.ml:97-103 | Neither denominator of the addition law vanishes on the curve, because D is not a square. |
| Curve.AddOnCurve | test/reference.ml:97-103 | The sum of any two curve points is a curve point, equal and opposite ones included. |
| Extended.AddFormula | lib/ocaml/ge448.ml:84-100 | The unified addition formula represents the affine sum of any two represented points, with nonzero Z and X Y = Z T. |
| Extended.DoubleFormula | lib/ocaml/ge448.ml:69-82 | The doubling formula, which does not read T, represents the affine double. |
| Extended.RepresentsIffExtended | lib/ocaml/ge448.ml:3-9 | A quadruple satisfies the extended curve equations exactly when it represents a curve point. |
| Ge448.Ge.Double | lib/ocaml/ge448.ml:71-82 | In place or not, the result is 2 p; its T is valid exactly when asked for, and a stale T of p is never read. |
| Ge448.Ge.AddCached | lib/ocaml/ge448.ml:87-100 | In place or not, p + q for any p and any cached q. |
| Ge448.Ge.AddAffine | lib/ocaml/ge448.ml:103-115 | In place or not, p + q for any p and any affine table entry q. |
| Ge448.Ge.Mul16 | lib/ocaml/ge448.ml:124-128 | 16 p with a valid T, although three of the four doublings skip it. |
| GeSelect.SelectBase | lib/ocaml/ge448.ml:161-178 | Masked selection and conditional negation give digit 2^(32 j) B for every digit in [-8, 8]. |
| GeSelect.SelectCached | lib/ocaml/ge448.ml:182-199 | The same from the cached multiples of a variable point. |
| Comb.RowsAreValue | lib/ocaml/ge448.ml:205-222 | The eight rows of the comb, recombined by Horner's rule, are worth all 112 digits. |
| GeScalar.ScalarmultBase | lib/ocaml/ge448.ml:208-222 | The 8 by 14 comb leaves a B for every scalar a below 2^446. |
| GeScalar.Scalarmult | lib/ocaml/ge448.ml:226-263 | The window method leaves a P for every scalar a below 2^446 and every curve point P. |
| Group.DoubleAndAdd | test/reference.ml:106-112 | The reference double-and-add computes the same multiple, so both fast forms refine it. |
| BaseTables.BalancedLimbs | tools/gen_tables.py:76-94 | Every field element below P has tight balanced limbs: the generator's assertions never fail. |
| BaseTables.GenerateTable | tools/gen_tables.py:101-129 | The generated OCaml table holds (i + 1) 2^(32 j) B in the place the comb reads it from. |
| BaseTables.GenerateNativeTables | tools/gen_tables.py:132-168 | The generated C table holds the same points as canonical (x, y, d x y) triples. |
| Encoding.DecodeIff | test/reference.ml:114-144 | A 57-octet string decodes to p exactly when p is on the curve and the string is its encoding: both round trips in one. |
| Encoding.AcceptedIff | test/reference.ml:130-144 | A string is accepted exactly when it is the canonical encoding of some curve point. |
| GeBytes.OfBytes | lib/ocaml/ge448.ml:279-300 | The limb code accepts exactly those strings, and then holds the decoded point in extended coordinates. |
| GeBytes.ToBytes | lib/ocaml/ge448.ml:269-275 | Any extended representation of p is written as the encoding of p. |
| NativeGe.Sum | lib/c/native/edwards448.h:105-121 | The completed C sum stands for p + q. |
| NativeGe.ScalarmultBase | lib/c/native/edwards448.h:235-254 | The C comb leaves a B for every scalar a below 2^446. |
| NativeGe.Scalarmult | lib/c/native/edwards448.h:258-296 | The C window method leaves a P for every scalar a below 2^446 and every curve point P. |
| NativeField.CtBytesEq | lib/c/native/field448.h:44-50 | 1 exactly when the first len bytes agree. |
| NativeField.FeCswap | lib/c/native/field448.h:117-125 | The masked exclusive or swaps both limb arrays, or neither. |
| NativeField.FePowP34 | lib/c/native/field448.h:155-192 | The C chain raises to (P - 3) / 4 modulo P. |
| NativeField.FeSqrtRatio | lib/c/native/field448.h:207-221 | The same candidate root and verdict as the OCaml code. |
| Keccak.UnrolledRound | lib/ocaml/keccak.ml:54-169 | The unrolled round on named lanes is theta, rho, pi, chi and iota, for any lane arithmetic. |
| Keccak.NativeRhoPi | lib/c/native/shake256.h:52-79 | The in-place walk around the 24-lane cycle with one carried lane is the simultaneous rho and pi. |
| Keccak.NativePermute | lib/c/native/shake256.h:52-79 | All rounds in place equal the rounds of the specification. |
| KeccakBits.AndNotBit | lib/ocaml/keccak.ml:144 | On 64-bit words, bit i of the and-not is 1 exactly when bit i of the first operand is 0 and of the second 1. |
| KeccakBits.RotlBit | lib/c/native/shake256.h:50 | Bit i of the word rotated by n is bit i - n modulo 64 of the word. |
| KeccakBits.RoundBits | lib/ocaml/keccak.ml:54-169 | One round of the byte permutation and of the lane permutation, bit by bit: theta, rho along its walk, pi, chi and iota as section 3.2 of FIPS 202 writes them. |
| KeccakBits.RoundsInOrder | lib/c/native/shake256.h:52-79 | Both permutations apply one round per constant, in order, and nothing else. |
| KeccakState.HashesAgree | lib/ocaml/keccak.ml:54-169 | On 200 bytes and on 25 lanes the two permutations give SHAKE256 the same output for every message, length and round constants. |
| Sponge.PaddingBits | lib/ocaml/shake256.ml:53-61 | The padding bytes are, bit for bit, the SHAKE suffix 1111 followed by pad10*1. |
| SpongeTrace.ShakeTrace | lib/ocaml/shake256.ml:19-71 | Every run spelled out: the padded octets, the state before and after each block, where each output octet comes from; 136 octets take part and the 512-bit capacity is neither added to nor output. |
| Shake256.Shake.AbsorbSub | lib/ocaml/shake256.ml:32-48 | The whole-block path and the byte path together append exactly the given bytes to the absorbed message. |
| Shake256.Chunked | lib/ocaml/shake256.ml:19-71 | Any split into absorb calls and any split into squeeze calls gives SHAKE256 of the joined message. |
| NativeShake.Chunked | lib/c/native/shake256.h:85-115 | The same for the C context, so both deliver the same chunks. |
| Ladder.DeferredStep | lib/ocaml/backend.ml:36-64 | One deferred swap per bit leaves the textbook pair, swapped exactly when the last bit was 1. |
| Ladder.LadderInvariant | test/reference.ml:45-73 | After any number of bits of a scalar of any length the registers hold m P and (m + 1) P. |
| Ladder.NativeStep | lib/c/native/curve448.h:57-79 | The register-reusing C step leaves the same four outputs as the step of RFC 7748. |
| MontgomeryLadder.DoubledPair | lib/c/native/curve448.h:57-79 | x_2 and z_2 of the step are (x^2 - z^2)^2 and 4 x z (x^2 + 156326 x z + z^2) modulo P. |
| MontgomeryLadder.AddedPair | lib/c/native/curve448.h:57-79 | x_3 and z_3 of the step are 4 (x_2 x_3 - z_2 z_3)^2 and 4 x_1 (x_2 z_3 - z_2 x_3)^2 modulo P. |
| Montgomery.AddOnCurve | lib/c/native/curve448.h:50 | The chord-and-tangent sum of two points of c v^2 = u^3 + 156326 u^2 + u is on that curve. |
| Montgomery.DifferentialAddition | lib/ocaml/backend.ml:49-57 | (u(q) - u(p))^2 u(p + q) u(p - q) = (u(p) u(q) - 1)^2 for points with different u. |
| Montgomery.Doubling | lib/ocaml/backend.ml:44-61 | 4 (u^3 + 156326 u^2 + u) u(2 p) = (u^2 - 1)^2, and 2 p is neutral exactly when the left factor is 0. |
| MontgomeryLadder.StepHolds | lib/ocaml/backend.ml:44-61 | From n P and m P, with n and m one apart, the step leaves 2 n P and (n + m) P, neutral and opposite points included. |
| MontgomeryLadder.LadderIsMultiple | test/reference.ml:40-73 | For every bit string worth k and every point with u not 0 the ladder's quotient is the u-coordinate of k P. |
| Montgomery.EveryCoordinate | lib/ocaml/backend.ml:12-14 | Every u in [0, P) is the coordinate of a point for some nonzero c, on Curve448 or its twist. |
| Pruning.PrunedValue | lib/ocaml/backend.ml:22-24 | The pruned integer is 2^447 + 4 (floor(n / 4) mod 2^445) for the input integer n. |
| X448.Multiply | lib/ocaml/backend.ml:15-71 | For every scalar and every u, on the curve with that u: the bytes are the u-coordinate of k P for k = 2^447 + 4 (floor(n / 4) mod 2^445), and the call fails exactly when it is 0. |
| X448.RejectSmallOrder | lib/ocaml/backend.ml:12-71 | With no hypothesis: for every scalar, u = 0, 1 or -1 modulo P gives 56 zero bytes and failure. |
| NativeX448.Multiply | lib/c/native/curve448.h:29-103 | The C bytes and verdict are those of that u-coordinate of k P too. |
| NativeX448.BackendsAgree | lib/c/native/curve448.h:29-103 | Both backends return the same bytes and verdict for every scalar and u-coordinate. |
| Ed448Spec.ReducedEquation | lib/ocaml/backend.ml:159-186 | For a key of order dividing 4 L, reducing k modulo L does not change the cofactored equation. |
| Ed448Spec.SignatureVerifies | test/reference.ml:164-195 | For any 114-octet hash function, every reference signature passes the reference verifier under the key of its seed. |
| Ed448Octets.SecretValue | lib/ocaml/backend.ml:84-98 | The secret scalar is 2^447 + 4 (floor(n / 4) mod 2^445) for the integer n of the first 56 hash octets. |
| Ed448Octets.SignatureOctets | test/reference.ml:148-176 | For any 114-octet hash: the two hashed strings written out, R = n B for the first hash n, and S = k s + n modulo L for the second hash k and the secret scalar s. |
| Ed448Octets.HashedOnce | lib/ocaml/backend.ml:73-82 | The hashed octets determine the flag, the context, the prefix and the message. |
| Ed448Octets.VerdictMeans | test/reference.ml:178-195 | Acceptance of any 114 octets: S is below L, key and R encode curve points A and R, and [4 S] B = [4] R + [4 k] A for the hash k of the written-out string. |
| Ed448Octets.VerdictOnMultiples | test/reference.ml:178-195 | For a key a B and R = r B: accepted if and only if S is below L and S = r + k a modulo L. |
| Ed448Octets.AcceptedOnce | lib/ocaml/backend.ml:156-186 | Two accepted signatures with the same R, key, flag, context and message are equal, whatever the order of the key. |
| Ed448Octets.PublicKeys | lib/c/native/curve448.h:123-150 | Both backends return the encoding of that multiple of B by the pruned first half of SHAKE256(seed). |
| Ed448Octets.Signatures | lib/c/native/curve448.h:154-197 | Both backends return the signature of SignatureOctets, with SHAKE256 as the hash. |
| Ed448Octets.Verdicts | lib/c/native/curve448.h:199-245 | Both verdicts are the one of VerdictMeans, on every signature and key. |
| Ed448Octets.VerdictsOnMultiples | lib/ocaml/backend.ml:156-186 | Both verdicts on a key a B and R = r B are the integer condition of VerdictOnMultiples. |
| Ed448.Public | lib/ocaml/backend.ml:100-110 | The fast public key is the reference one, which Ed448Octets spells out; other seed lengths are refused. |
| Ed448.Sign | lib/ocaml/backend.ml:132-153 | The fast signature is the reference one for the given key, which Ed448Octets spells out; wrong lengths leave the buffer alone. |
| Ed448.Verify | lib/ocaml/backend.ml:159-186 | Accepts exactly what the reference verifier accepts, whose k is not reduced and which Ed448Octets spells out; wrong lengths are refused. |
| Ed448.SignThenVerify | lib/ocaml/backend.ml:132-186 | Signing and verifying with the fast code succeeds for every seed, flag, context and message. |
| NativeEd448.Sign | lib/c/native/curve448.h:154-197 | The C signature is the reference one, which Ed448Octets spells out. |
| NativeEd448.Verify | lib/c/native/curve448.h:201-245 | The C verifier accepts exactly what the reference verifier accepts, which Ed448Octets spells out. |
| NativeEd448.FromBytes | lib/c/native/edwards448.h:316-351 | The C decoder accepts exactly the canonical encodings of curve points and holds the point. |
| NativeEd448.BackendsAgree | lib/c/native/curve448.h:154-245 | The two signers return the same bytes, and each verifier accepts the other's. |
| NativeEd448.VerdictsAgree | lib/c/native/curve448.h:201-245 | The two verifiers agree on every signature, key, context and message. |
| KernelProgram.BoundSound | tools/gen_fe448_ocaml.py:137-166 | An expression stays within its interval bound and peak, and below a peak of 2^62 wrapping evaluation equals exact evaluation. |
| KernelProgram.PeakCovers | tools/gen_fe448_ocaml.py:137-166 | Every subexpression and partial sum stays within the peak. |
| KernelAnalysis.OverrideSound | tools/gen_fe448_ocaml.py:309-324 | A statement that passes the shape check lies in [-2^27, 2^27), rebinding of names included. |
| KernelAnalysis.ReportSound | tools/gen_fe448_ocaml.py:327-339 | For every accepted program and every run within the input bounds, all reported bounds and the peak hold at every statement. |
| KernelAnalysis.Analyse | tools/gen_fe448_ocaml.py:327-339 | Rejects exactly the programs with an unbound name or an unjustified override, and reports exactly these bounds. |
| KernelAnalysis.Check | tools/gen_fe448_ocaml.py:346-355 | Passes exactly below 2^62 with tight outputs; then the native run is the exact run and its outputs are tight. |
| KernelRoundTrip.RoundTripIff | tools/gen_fe448_ocaml.py:85-113 | Parsing the printed text returns the intended tree if and only if every one-term sum stands where its term needs no parentheses. |
| KernelRoundTrip.UnreadableExample | tools/gen_fe448_ocaml.py:100-103 | A one-term sum under a product is printed without its parentheses and read back as another tree. |
| KernelText.FunctionRoundTrip | formal/tools/kernels_to_lean.py:285-347 | The emitted text of a kernel is read as the function meant, whatever follows it. |
| KernelSsa.Resolve | formal/tools/kernels_to_lean.py:385-470 | Accepts exactly the load-compute-store functions with a kernel's signature, and the indexed statements store the same 16 values in every arithmetic. |
| KernelSsa.ResolveAndExecute | formal/tools/kernels_to_lean.py:385-470 | Run in place, with out possibly an input, the function leaves the outputs of its indexed form on the original contents. |
| KernelText.EmitReadResolve | tools/gen_fe448_ocaml.py:384-405 | Emitting, reading and resolving succeeds exactly for acceptable functions and preserves the program's outputs. |
| KernelReadable.AcceptedIsAcceptable | formal/tools/kernels_to_lean.py:385-470 | Every program the analysis accepts, on inputs the kernel loads or is passed and with names of its own, has a text the reader accepts. |
| KernelChain.SerialSound | tools/gen_fe448_ocaml.py:169-187 | From any columns within their bound the built carry chain is accepted, keeps the value modulo P and ends tight. |
| KernelColumns.ColumnsSound | tools/gen_fe448_ocaml.py:204-226 | The built columns, plain or squared, hold the coefficients of the product within eight products. |
| KernelProduct.ProductSound | tools/gen_fe448_ocaml.py:242-269 | The built mul and sq programs end with tight limbs worth the product modulo P. |
| KernelLinear.LinearSound | tools/gen_fe448_ocaml.py:272-296 | The built add, sub, mul_small and carry programs end with tight limbs worth their operation modulo P. |
| KernelGenerated.KernelCorrect | tools/gen_fe448_ocaml.py:408-410 | For all six kernels the analysis accepts the built program, reports a peak below 2^62 and tight outputs, and every run computes the operation modulo P. |
| KernelGenerated.Generate | tools/gen_fe448_ocaml.py:346-381 | No generated kernel is refused by its check, and its native run computes the operation modulo P. |
| KernelGenerated.BuildAndRead | formal/tools/kernels_to_lean.py:473-491 | Built, printed, read and resolved, every kernel is accepted at each step and its indexed statements compute the operation modulo P. |

## Left out

- The limb code of the C field (fiat-crypto, `p448_64.h`): C field operations are exact functions modulo P; `NativeField.FeCswap` is the one C routine on limbs.
- Buffers inside records: the coordinates of a point record are fields that hold limb vectors as values, and the shared scratch records of `ge448.ml` and the ladder's work elements are local variables, so aliasing between scratch fields is not modelled.
- X448.Compute: the output buffer is a result, so the check of its length is left out.
- The data of the base table and Keccak's constant lists: how the table is built and read is modelled, and the permutations hold for any round constants.
- Associativity of the two curve laws, Fermat's theorem for P, the non-square D, the order of B and the exponent of the group: hypotheses, listed above.
- Constant-time behaviour, value barriers and wiping of secrets.
- OCaml and C bindings, length-check wrappers, prehashing for Ed448ph and random key generation.
- KernelAnalysis.Check: the 3000 random trials of `check` are left out; `KernelGenerated.KernelCorrect` covers every input instead.
- Lexing in `kernels_to_lean.py`: the parser works on tokens; comments, the Wide preamble and the order of kernels in a file are not modelled.
- The Lean text that `kernels_to_lean.py` writes, and `keccak_to_lean.py`, a second reader of the same kind.
- The byte swap of the 64-bit block path on big-endian machines.
- Test vectors, fuzzing, benchmarks and build files.
