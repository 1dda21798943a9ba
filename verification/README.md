# Obsign, verified

Obsign keeps a hash-chained audit log of what an agent does through an MCP
gateway, seals it with signed Merkle checkpoints, exports it as an evidence
pack, and checks such packs offline. This project models its hardest parts in
Dafny and proves what they are for.

**P-256 signature verification** (`Limbs`, `NumberTheory`, `Montgomery`,
`Curve`, `Jacobian`, `Ecdsa`). The 64-bit limbs, the interleaved Montgomery
multiplication with its single final subtraction, the Newton inverse, the
Fermat inverse, the Jacobian doubling and addition and the bit-by-bit scalar
multiplication are written as the source writes them, loop by loop, and proved
against modular arithmetic and the affine chord-and-tangent law. The top result:
if the two constants are prime, `Ecdsa.Verify` accepts exactly the signatures
that section 4.1.4 of SEC 1 accepts.

**The proof pipeline** (`Canonical`, `Json`, `Records`, `Merkle`, `Chain`,
`Origin`, `Ledger`, `Pass`, `Evidence`, and the theorems in `Meaning`, `Causes`,
`Soundness`, `Custody`, `History`, `Completeness`, `Agreement`). Records are encoded,
hashed, linked, batched under Merkle roots and sealed by passes over a growing
log; an independent verifier recomputes everything. Proved: the encodings
identify what they encode; a report carries each of its findings exactly when the
pack gives the stated cause for it, and each of its counters counts a stated set;
an error-free report means exactly a stated list of facts; two error-free packs
with a common checkpoint share their history below it, and so do two stores that
open; whatever logs the passes are handed, sealed history is never rewritten and
the checkpoints tile it; every run of passes by honest sealers exports a pack
whose checkpoints are all valid and whose report is free of errors exactly when
the bundle, the certificates and the origin signatures are in order; and the
records such a run sealed are authentic in the final report if its passes required
origin, and raise no origin error without that if every id they name was known by
then, provided no id is shared by two keys.

**The gateway session** (`Auth`, `SessionLog`, `Gateway`, `Arbitration`,
`Protocol`, `Permission`). Agent and server messages, token renewals and server
responses caught between their two lock acquisitions interleave freely. Proved of
every message: what passes, and what is recorded, told from the message, the grant
in force and the policy engine alone. Proved for every run: each act has exactly
one call and one decision, and its effect is in exactly one place; no two records
share an identifier; no side closes the other side's acts; from each act one climbs
to the delegation its verdict was reached under; and every decision that lets an act
through is the engine's own answer about the recorded call under that delegation.

**The store's files** (`Journal`). JSON lines appended and reloaded across
crashes, with the exact crash point at which an acknowledged item is lost.

**Signed configuration** (`SignedLists`, `IdentityBundles`, `PolicyBundles`,
`DeploymentBundles`). Across all format versions, a signed body identifies its
bundle, up to the order of keys; with no id repeated the order never reaches the
signature. Older formats, which sign less, are shown to need the refusals they have.

**Binary readers** (`Tpm`, `TpmFormat`, `Attestation`, `AttestationProof`, `Der`,
`DerFormat`, `GitIndex`, `IndexFormat`, `CacheTree`). Bounds-checked readers of
untrusted bytes. Each is proved to invert a writer of its format and, the other way
round, to accept nothing else: a git index of versions 2 to 4, a cache tree, a TPM
public area, quote or certify, a timestamp response are each read exactly when the
bytes are one, laid out as stated. An accepted attestation is taken apart down to
the bytes that were signed.

Digest functions, Ed25519, JSON text, hex and the policy engine are parameters:
what is proved holds for every choice of them. Where the source relies on
collision resistance, the hypothesis is that no two of the inputs actually
hashed, an explicit finite set, share a digest.

Some promises of the source hold only under a condition, and each comes with the
condition and a witness of the failure:

- length prefixes keep 32 bits, so two strings can be confused exactly when their
  lengths agree modulo 2^32 and one begins with the other (`Canonical.LengthWraps`,
  `Canonical.EmptyConfused`);
- a DER length above 65535 is cut to 16 bits (`Der.TlvRoundTrip`);
- the two forms in which a certify names a key overlap on 32-byte public areas
  (`Attestation.CertifyBindsOneKey`, `Attestation.FormsOverlap`);
- sealer and verifier disagree on a log exactly when two keys of one id dispute a
  record of it, and two keys whose first eight bytes agree do so over time
  (`Agreement.DisagreementIs`, `Agreement.SharedIdDisagrees`);
- a pass that requires origin never looks at certificates it does not use, so it
  seals a record whose certificate the verifier reports as an error
  (`Agreement.SealedCertRejected`; the condition is in `Completeness.MandatedRunVerifies`);
- a pass that does not require origin seals a record under an id nobody has certified
  yet, and a certificate that comes later can make the verifier judge it bad; the
  condition is in `Agreement.SealedBadIs`, the input in `Agreement.LateKeyJudgesBad`;
- a crash between a line and its newline loses the next acknowledged item
  (`Journal.NextAppendSurvives`);
- a seal that names another id than the key presented with it leaves a store that
  does not open again (`Ledger.AppendReopens`, `History.MismatchedSealerWitness`). The
  file and PKCS #11 sealers of the repository return one field for both ids, so this
  input needs another implementation of the sealer trait or a direct call of
  `append_checkpoint`.

`dafny verify dfyconfig.toml` checks the whole project.

## Model

| member | source | states |
|---|---|---|
| Limbs.Ge | crates/obsign-audit-core/src/p256.rs:50-57 | the limb comparison decides the order of the 256-bit values |
| Limbs.Add | crates/obsign-audit-core/src/p256.rs:63-73 | sum and carry out together are the exact integer sum |
| Limbs.Sub | crates/obsign-audit-core/src/p256.rs:75-85 | difference and borrow together are the exact integer difference |
| Montgomery.ModAdd | crates/obsign-audit-core/src/p256.rs:198-206 | addition modulo m, including when the raw sum leaves 256 bits |
| Montgomery.AddRow | crates/obsign-audit-core/src/p256.rs:137-147 | one row of partial products added into the six-limb accumulator, with no u64 or u128 step overflowing |
| Montgomery.ReduceRow | crates/obsign-audit-core/src/p256.rs:148-161 | one Montgomery reduction row: the accumulator plus a multiple of m, exactly divided by 2^64, with no step overflowing |
| Montgomery.Field.MulRound | crates/obsign-audit-core/src/p256.rs:137-161 | each round keeps the accumulator below m + b and congruent to (low limbs of a) times b over the power of 2^64 consumed |
| Montgomery.Field.Mul | crates/obsign-audit-core/src/p256.rs:133-167 | the result is below m and equals a times b times 2^-256 modulo m, for any a and any b below m |
| Montgomery.LimbInverse | crates/obsign-audit-core/src/p256.rs:101-110 | six Newton rounds invert an odd limb modulo 2^64 |
| Montgomery.NewField | crates/obsign-audit-core/src/p256.rs:101-117 | for every odd modulus with its top bit set, m0 is -1/m modulo 2^64, one is 2^256 and r2 is 2^512 modulo m |
| Montgomery.Field.RoundTrip | crates/obsign-audit-core/src/p256.rs:170-177 | leaving after entering gives back every residue, and any number below 2^256 reduced |
| Montgomery.Field.Pow | crates/obsign-audit-core/src/p256.rs:180-189 | the bit-by-bit loop computes the mathematical power |
| Montgomery.ZeroDecodes | crates/obsign-audit-core/src/p256.rs:45-47 | residues are canonical: the limbs are zero exactly when the element is |
| NumberTheory.Fermat | crates/obsign-audit-core/src/p256.rs:191-194 | for a prime p and a not divisible by p, a^(p-1) is 1 modulo p |
| Montgomery.Field.Inv | crates/obsign-audit-core/src/p256.rs:191-194 | the exponentiation by m - 2, which for a prime modulus inverts every nonzero residue |
| Jacobian.DoubleStands | crates/obsign-audit-core/src/p256.rs:221-254 | doubling a triple that stands for an affine point stands for its chord-and-tangent double, infinity and y = 0 included |
| Jacobian.AddStands | crates/obsign-audit-core/src/p256.rs:256-286 | adding triples stands for the affine sum in every branch: either at infinity, equal, opposite, distinct |
| Curve.AddOnCurve | crates/obsign-audit-core/src/p256.rs:256-286 | the chord-and-tangent sum of two curve points is on the curve |
| Ecdsa.Double | crates/obsign-audit-core/src/p256.rs:221-254 | the limb code computes the triple formula and keeps coordinates canonical |
| Ecdsa.Add | crates/obsign-audit-core/src/p256.rs:256-286 | the limb code computes the triple formula and keeps coordinates canonical |
| Ecdsa.ScalarMul | crates/obsign-audit-core/src/p256.rs:289-298 | most-significant-bit-first double-and-add, on triples |
| Ecdsa.TimesStands | crates/obsign-audit-core/src/p256.rs:289-298 | double-and-add on triples refines double-and-add over the affine law |
| Curve.TimesIsSum | crates/obsign-audit-core/src/p256.rs:289-298 | if the affine law is associative, double-and-add is the n-fold sum |
| Ecdsa.BaseOnCurve | crates/obsign-audit-core/src/p256.rs:303-325 | the base point constants satisfy the curve equation |
| Ecdsa.FromBe | crates/obsign-audit-core/src/p256.rs:40-43 | the four limbs hold the value of the 32 big-endian bytes |
| Ecdsa.Verify | crates/obsign-audit-core/src/p256.rs:326-391 | if the two constants are prime, accepts exactly what section 4.1.4 of SEC 1 accepts: key format, point on curve, r and s in range, and the abscissa of u1 G + u2 Q |
| Canonical.Encoder.Str | crates/obsign-audit-core/src/canonical.rs:40-50 | appends the length-prefixed bytes |
| Canonical.ReadText | crates/obsign-audit-core/src/canonical.rs:40-50 | a length-prefixed string at the head of a buffer is read back in one way |
| Canonical.ReadTextSeq | crates/obsign-audit-core/src/canonical.rs:89-95 | so is a counted list of strings |
| Canonical.ReadOptText | crates/obsign-audit-core/src/canonical.rs:59-64 | so is an optional string: absent and empty differ |
| Canonical.LengthWraps | crates/obsign-audit-core/src/canonical.rs:44-50 | two strings can stand at the head of one buffer exactly when their lengths agree modulo 2^32 and one begins with the other; below 2^32 bytes that is equality |
| Canonical.EmptyConfused | crates/obsign-audit-core/src/canonical.rs:44-50 | the empty string and 2^32 zero bytes can be confused |
| Json.EncodeJson | crates/obsign-audit-core/src/record.rs:100-134 | appends the type-tagged encoding, object fields in sorted key order |
| Json.EncodingDecidesSameJson | crates/obsign-audit-core/src/record.rs:100-134 | two JSON values encode alike exactly when they are equal up to object key order |
| Records.EncodePayload | crates/obsign-audit-core/src/record.rs:294-387 | appends the tag and the fields of each of the payload types |
| Records.ReadPayload | crates/obsign-audit-core/src/record.rs:294-387 | a payload at the head of a buffer is read back in one way, whatever its type |
| Records.TagsDistinct | crates/obsign-audit-core/src/record.rs:249-292 | different payload types never share a tag |
| Records.EncodeRecord | crates/obsign-audit-core/src/record.rs:749-759 | the hashed body, field by field |
| Records.EncodingIdentifiesRecord | crates/obsign-audit-core/src/record.rs:749-759 | two records have the same hashed body exactly when they are equal up to key order inside unknown JSON payloads |
| Merkle.SplitIsLargestPower | crates/obsign-audit-core/src/merkle.rs:16-38 | the reference tree splits at the largest power of two below n, as section 2.1 of RFC 6962 does |
| Merkle.LevelKeepsTree | crates/obsign-audit-core/src/merkle.rs:16-38 | one pass of pairing with odd promotion leaves the reference tree's root unchanged |
| Merkle.MerkleRoot | crates/obsign-audit-core/src/merkle.rs:16-38 | the level loop computes the root of the reference tree, for every n |
| Merkle.RootInjective | crates/obsign-audit-core/src/merkle.rs:16-50 | equal roots come from equal batches of any lengths, or two inputs hashed for them collide |
| Chain.CheckpointEncodingInjective | crates/obsign-audit-core/src/checkpoint.rs:38-50 | the signed bytes pin every field of a checkpoint |
| Chain.SealMeans | crates/obsign-audit-core/src/checkpoint.rs:80-124 | a seal is refused exactly for no records or for records that do not follow one another, and otherwise holds the ends, the root and the head of exactly those |
| Chain.SealInterval | crates/obsign-audit-core/src/checkpoint.rs:80-124 | refuses empty and broken intervals, otherwise the checkpoint over exactly those records |
| Chain.ChainWriter.Append | crates/obsign-audit-core/src/lib.rs:107-134 | sets seq and prev_hash, extends a well-linked log by one record |
| Chain.ChainWriter.Seal | crates/obsign-audit-core/src/lib.rs:138-154 | for every history, seals exactly what seal_interval makes of the records since the last seal |
| Chain.PrefixPinned | crates/obsign-audit-core/src/record.rs:743-760 | two well-linked logs with the same hash at one position are equal up to it, or two record encodings collide |
| Origin.CertBytesBind | crates/obsign-audit-core/src/origin.rs:48-60 | the bytes an identity key signs bind chain, keys, gateway and window |
| Origin.HarvestCertified | crates/obsign-ledger/src/pass.rs:112-130 | the session keys the chain's certificates authorize |
| Origin.CertifiedMeans | crates/obsign-ledger/src/pass.rs:112-130 | every harvested key is listed under its own id and was certified by a record of the chain |
| Origin.CollectActive | crates/obsign-audit-core/src/deployment.rs:103-115 | the enrolled keys, or refusal when an entry has another role, an unusable key or a repeated id |
| Origin.ResumeSessionTrust | crates/obsign-proxy/src/origin.rs:303-323 | a resuming gateway trusts exactly what the chain certifies, plus its own new key |
| Ledger.Open | crates/obsign-ledger/src/store.rs:49-106 | accepts a store exactly when every checkpoint chains, resumes coverage, is signed by its recorded key, and every anchor names one |
| Ledger.Store.AppendCheckpoint | crates/obsign-ledger/src/store.rs:144-179 | the new contents and every refusal, the key being recorded before the signature is checked |
| Ledger.Store.AppendAnchor | crates/obsign-ledger/src/store.rs:184-193 | accepts exactly anchors over a checkpoint it holds |
| Ledger.AppendReopens | crates/obsign-ledger/src/store.rs:144-179 | after any append a store that reopened still does, except that a successful append reopens exactly when the seal's own key id resolves to a key that verifies it |
| Ledger.HonestAppendReopens | crates/obsign-ledger/src/store.rs:144-179 | a seal appended under the key it names always reopens |
| Custody.OpensWhen | crates/obsign-ledger/src/store.rs:49-106 | a store opens exactly when each checkpoint is on its chain, names the hash of the one before, starts where it ended and is signed by the key recorded first under its id, and each anchor names a checkpoint by its hash |
| Custody.AppendsWhen | crates/obsign-ledger/src/store.rs:140-179 | an append succeeds exactly when the checkpoint continues the store's, the key contradicts none recorded and signed it; and what changes when it does not |
| Custody.AppendIsOpen | crates/obsign-ledger/src/store.rs:49-179 | appending to a store that opens, under the key the seal names, succeeds exactly when the extended store opens |
| Custody.HashPinsHistory | crates/obsign-ledger/src/store.rs:49-106 | two stores that open and hold a checkpoint of the same hash hold it at the same place after the same checkpoints, or two signed encodings collide |
| Custody.OpenedCoversOnce | crates/obsign-ledger/src/store.rs:49-106 | the checkpoints of a store that opens cover every sequence number up to the last end exactly once |
| Pass.PolicyFromBundle | crates/obsign-ledger/src/pass.rs:79-98 | the policy of a bundle the ops key signed, refused when requiring origin with no key enrolled |
| Pass.RefusalMeans | crates/obsign-ledger/src/pass.rs:138-160 | under any policy a record may be sealed exactly when its signature is that of the key its id names to the sealer, or it has no signature or an id that names none and the policy does not require origin; and which refusal otherwise |
| Pass.SealPass | crates/obsign-ledger/src/pass.rs:187-261 | the new store contents and the answer, branch by branch |
| History.PassAnswers | crates/obsign-ledger/src/pass.rs:187-261 | what each answer says about the log and the store: the first unreadable or refused record and why, what is sealed by then, or which check of the log failed |
| History.PassSealsLongestRun | crates/obsign-ledger/src/pass.rs:197-261 | a pass changes the store only by one checkpoint over exactly the longest acceptable run after the sealed part, and does so whenever that run is worth a seal and sealing succeeds |
| History.BoundaryPins | crates/obsign-ledger/src/pass.rs:205-222 | the single boundary-hash comparison accepts a log exactly when it still begins with every sealed record, or two record encodings collide |
| History.RunsKeepCover | crates/obsign-ledger/src/pass.rs:187-261 | over every run of passes, on any logs, stored checkpoints are never altered and tile a prefix of the last log accepted with no gap and no overlap |
| History.SealedNeverRewritten | crates/obsign-ledger/src/pass.rs:187-261 | any log a later pass accepts begins with every record sealed before |
| History.RunsReopen | crates/obsign-ledger/src/store.rs:28-106 | after any run of passes by sealers that name their own key the store reopens |
| History.MismatchedSealerBreaksStore | crates/obsign-ledger/src/store.rs:144-179 | any seal that names an unrecorded other id leaves a store that does not open |
| History.MismatchedSealerWitness | crates/obsign-ledger/src/store.rs:144-179 | one record, a new store, one pass: the store opens again exactly when the two ids are the same |
| Verifier.CheckChain | crates/obsign-audit-core/src/evidence.rs:232-346 | the findings of the chain pass and the hash kept for each sequence number |
| Verifier.CheckOrigin | crates/obsign-audit-core/src/evidence.rs:362-416 | the origin tally and findings |
| Verifier.CheckSeals | crates/obsign-audit-core/src/evidence.rs:418-571 | the findings on each checkpoint and the intervals of the valid ones |
| Verifier.CheckAnchors | crates/obsign-audit-core/src/evidence.rs:573-664 | the anchors that hold and the findings on the others |
| Verifier.ResolveDeployment | crates/obsign-audit-core/src/evidence.rs:764-823 | the identity keys once the bundle has been taken into account, a listed key winning over the bundle |
| Verifier.ResolveCerts | crates/obsign-audit-core/src/evidence.rs:712-752 | the origin keys once certificates have been folded in, a certified key overwriting |
| Verifier.VerifyWith | crates/obsign-audit-core/src/evidence.rs:168-700 | the whole report: every count and every finding in order |
| Causes.FindingsHaveCauses | crates/obsign-audit-core/src/evidence.rs:168-700 | a report carries a finding of a given code and severity exactly when the keys, the bundle, a certificate, a record, a checkpoint or an anchor of the pack gives the stated cause for it |
| Causes.CountsCount | crates/obsign-audit-core/src/evidence.rs:668-700 | every counter is the size of a stated set: records their origin key signed, checkpoints without fault, anchors whose token imprints their checkpoint, sequence numbers a faultless checkpoint covers |
| Causes.OriginIs | crates/obsign-audit-core/src/evidence.rs:362-403 | authentic exactly when a listed origin key signed the record; half a signature, a wrong one and a key of another role are errors, an absent or unknown one is missing |
| Causes.AnchorIs | crates/obsign-audit-core/src/evidence.rs:589-650 | which code each reading of an anchor's token yields, the warning only when it imprints the checkpoint's own hash |
| Causes.IdentitiesAre | crates/obsign-audit-core/src/evidence.rs:764-823 | an identity is a listed origin key, or else one that a bundle signed by a trusted ops key enrols |
| Causes.LastHash | crates/obsign-audit-core/src/evidence.rs:254-346 | the hash kept for a sequence number is that of the last record to claim it |
| Causes.LastKey | crates/obsign-audit-core/src/evidence.rs:180-215 | an id resolves, in a role, to the last usable entry under it |
| Meaning.ChainPassMeans | crates/obsign-audit-core/src/evidence.rs:254-346 | the chain pass reports no error exactly on a readable unbroken run anchored on genesis when it starts at zero |
| Meaning.CheckpointMeans | crates/obsign-audit-core/src/evidence.rs:423-571 | a checkpoint raises no finding exactly when it is the seal of its records, chained to the one before, under a known sealing key |
| Meaning.SealPassMeans | crates/obsign-audit-core/src/evidence.rs:423-571 | no error, no finding on any checkpoint, and checkpoints_valid equal to the total are the same thing |
| Meaning.DeploymentMeans | crates/obsign-audit-core/src/evidence.rs:764-882 | the deployment pass reports no error exactly when there is no bundle, or its ops key does not resolve, or the bundle verifies under it, its active keys are usable and distinct, no listed key disagrees, and the attestations found check and, when required, are all there |
| Meaning.AnchorPassMeans | crates/obsign-audit-core/src/evidence.rs:573-664 | the anchor pass reports no error exactly when every anchor names a checkpoint of the pack and its granted token imprints that checkpoint's hash |
| Meaning.ErrorFreeMeans | crates/obsign-audit-core/src/evidence.rs:168-700 | a report without errors is equivalent to a list of facts stated without the verifier |
| Soundness.SealedRecordsAgree | crates/obsign-audit-core/src/evidence.rs:423-571 | two error-free packs with a common checkpoint hold its interval and agree on it and on everything earlier both hold, or two record encodings collide |
| Soundness.RootPinsRecords | crates/obsign-audit-core/src/evidence.rs:505-545 | a sealed Merkle root alone pins the records under it and their number |
| Soundness.ErrorFreeCounts | crates/obsign-audit-core/src/evidence.rs:679-693 | the counters of an error-free report |
| Soundness.SameSealsSameCoverage | crates/obsign-audit-core/src/evidence.rs:423-571 | two error-free packs with the same checkpoints report the same sealed positions and the same number of sealed records |
| Completeness.ExportVerifies | crates/obsign-ledger/src/pass.rs:276-293 | a covered log and a store that reopens export to a pack with every checkpoint valid, every anchor good and exactly the sealed records counted, and free of errors exactly when bundle, certificates and origin signatures are in order |
| Completeness.ExportKeepsAll | crates/obsign-ledger/src/pass.rs:276-293 | store, log, keys and bundle can be read back from the exported evidence |
| Completeness.PipelineVerifies | crates/obsign-ledger/src/pass.rs:187-293 | the same from the first append, through any passes by honest sealers at any time, for any bundle, trusted keys and options |
| Completeness.RunStands | crates/obsign-ledger/src/pass.rs:138-261 | over a run of passes that require origin, or that no record surprises, each harvesting certificates from the prefix it was handed, every sealed record stands before a verifier that harvests from the whole log |
| Completeness.MandatedRunVerifies | crates/obsign-ledger/src/pass.rs:138-293 | when every pass requires the origins of the exported bundle, which holds under a resolved ops key, and no id is shared by two keys enrolled or certified anywhere on the final log, every sealed record is authentic in the final report, which is free of errors exactly when the attestations and certificates are in order and so are the records not yet sealed |
| Completeness.LenientRunVerifies | crates/obsign-ledger/src/pass.rs:138-293 | whether or not passes require origin, if every id a record names and the verifier resolves was enrolled or certified by then, no sealed record raises an origin error |
| Completeness.UnsignedRunVerifies | crates/obsign-ledger/src/pass.rs:187-293 | a chain without resolvable signatures, verified under the store's own keys with nothing mandated, gives a report without errors |
| Agreement.SealerAndVerifierAgree | crates/obsign-ledger/src/pass.rs:138-160 | under one bundle, ops key and chain, with no id shared by two keys, the report counts exactly the records a requiring policy would seal |
| Agreement.DisagreementIs | crates/obsign-audit-core/src/evidence.rs:362-403 | under one root of trust they agree on every record of a log exactly when no record of it is disputed between two keys under one id |
| Agreement.SealedOriginIs | crates/obsign-ledger/src/pass.rs:112-160 | what the verifier makes of a record a requiring pass accepted on a shorter log: authentic exactly when the key finally under its id verifies it |
| Agreement.SealedIsAuthentic | crates/obsign-ledger/src/pass.rs:112-160 | with no id shared by two keys, whatever a requiring pass accepted on a shorter log the verifier counts authentic |
| Agreement.SealedBadIs | crates/obsign-ledger/src/pass.rs:138-160 | a record any pass accepted is judged bad exactly when the pass knew no key under its id and the verifier holds one that did not sign it, or one of another role |
| Agreement.LateKeyJudgesBad | crates/obsign-ledger/src/pass.rs:138-160 | a record sealed without the mandate before its key was certified is judged invalid afterwards, with no id shared |
| Agreement.SharedIdDisagrees | crates/obsign-audit-core/src/origin.rs:37-42 | two keys with the same first eight bytes and a two-record log: every pass accepts the first record, and the verifier reports its signature invalid |
| Agreement.SameIdFromEightBytes | crates/obsign-audit-core/src/origin.rs:37-42 | two keys have the same id exactly when their first eight bytes agree |
| Agreement.SealedCertRejected | crates/obsign-audit-core/src/evidence.rs:712-752 | a certificate no identity key signed is sealed by a requiring pass and reported as an error by the verifier |
| Agreement.ResumeAnticipatesCertificate | crates/obsign-proxy/src/origin.rs:303-323 | the trust a gateway resumes with is what sealer and verifier harvest once its certificate is on the chain |
| Auth.Authority.Refresh | crates/obsign-proxy/src/auth.rs:151-190 | the new authority and outcome, branch by branch |
| Auth.Authority.Present | crates/obsign-proxy/src/auth.rs:198-240 | the new authority and outcome, branch by branch |
| Auth.RenewalCounts | crates/obsign-proxy/src/auth.rs:151-240 | the generation advances by one exactly when the delegation changes, which is when renewal is reported |
| Auth.ConsultMeans | crates/obsign-proxy/src/auth.rs:151-240 | an act is let through to judgement exactly when some grant authorizes it: the one a new token carries, once verified, or the unexpired one in force, or the one re-read from disk; then that grant is the one held, and a refusal changes nothing but the reloads on record |
| Auth.DenialSays | crates/obsign-proxy/src/auth.rs:151-240 | each refusal names what was wrong with which token |
| SessionLog.Session.RecordReloads | crates/obsign-proxy/src/session.rs:127-137 | one parentless record per reload, numbered on |
| SessionLog.Session.RecordGrant | crates/obsign-proxy/src/session.rs:187-258 | delegation, optional label, actor and agent session records chained by parent, and the attribution parent moved |
| SessionLog.RenderInjective | crates/obsign-proxy/src/session.rs:97-100 | record identifiers with the same text are the same identifier |
| Gateway.HandleFromAgent | crates/obsign-proxy/src/gateway.rs:183-578 | the new session, the new authority and whether the message passes, branch by branch |
| Gateway.HandleServerInitiated | crates/obsign-proxy/src/gateway.rs:796-973 | the new session and what becomes of the message |
| Gateway.ArbitrateNotification | crates/obsign-proxy/src/gateway.rs:986-1071 | the three records close in one pass |
| Gateway.TakePending | crates/obsign-proxy/src/gateway.rs:669-671 | a response's slot leaves its table under the first lock |
| Gateway.WriteServerEffect | crates/obsign-proxy/src/gateway.rs:671-694 | the effect reserved is written under the second |
| Gateway.PresentBearer | crates/obsign-proxy/src/http.rs:501-539 | a token on an unarbitrated message moves identity and attribution together |
| Arbitration.IdentityWritten | crates/obsign-proxy/src/gateway.rs:353-401 | reloads, then the delegation, readable name, actor and agent session of a new generation, field by field, are in the log before anything is judged under it |
| Arbitration.ActDecided | crates/obsign-proxy/src/gateway.rs:183-578 | an act passes exactly when a grant authorizes it, the engine permits exactly that act under that grant and its id awaits no answer; without authority or outside the surface it is always a recorded refusal no policy made |
| Arbitration.RelayedUp | crates/obsign-proxy/src/gateway.rs:183-330 | what passes untouched is the listed machinery and nothing else |
| Arbitration.AnswerDecided | crates/obsign-proxy/src/gateway.rs:199-262 | an awaited answer closes its own effect with its outcome and hash, a relayed one passes once, any other is recorded and refused |
| Arbitration.ServerHeard | crates/obsign-proxy/src/gateway.rs:796-838 | everything the server opens is machinery, a log message or a request that is judged |
| Arbitration.RequestDecided | crates/obsign-proxy/src/gateway.rs:840-973 | a server request reaches the agent exactly when the delegation is alive, the engine permits its capability and its id awaits no answer |
| Arbitration.NoteDecided | crates/obsign-proxy/src/gateway.rs:986-1071 | a log message is delivered exactly under a live delegation and a permission, and closed at once |
| Arbitration.EffectRecorded | crates/obsign-proxy/src/gateway.rs:667-694 | the effect of an answered act records success or error, a tool's own error included, and the hash of what came back |
| Protocol.OpenSession | crates/obsign-proxy/src/http.rs:648-666 | what the opening of a session writes |
| Permission.OpeningWritten | crates/obsign-proxy/src/http.rs:648-666 | a session opens with the reloads, its certificate, the deployment bundle and the first delegation, in that order and with nothing else |
| Protocol.NextGood | crates/obsign-proxy/src/gateway.rs:183-578 | every atomic move keeps the books, the tables, the attribution and the cap on relayed ids |
| Protocol.OneFateEach | crates/obsign-proxy/src/gateway.rs:183-1071 | in every run each act has exactly one call and one decision, and its effect is in exactly one of five places, once; decision and effect hang under their call and decision, and an effect is never due only for an act that was let through with no id to answer under |
| Protocol.IdsUnique | crates/obsign-proxy/src/session.rs:97-258 | in every run no two records of a session share an identifier |
| Protocol.Attribution | crates/obsign-proxy/src/gateway.rs:353-401 | in every run the attribution parent is the current generation's session record, and each act climbs to the delegation its verdict was reached under |
| Protocol.GenerationsRecorded | crates/obsign-proxy/src/session.rs:187-258 | the generation is the number of delegations recorded, each exactly once |
| Protocol.AgentNeverClosesServerSide | crates/obsign-proxy/src/gateway.rs:199-232 | an agent message closes no act awaiting the server, and of those awaiting the agent at most the one under its own id |
| Protocol.ServerClosesNothing | crates/obsign-proxy/src/gateway.rs:796-973 | a message the server opens closes no act at all besides its own |
| Protocol.ResponseClosesItsOwn | crates/obsign-proxy/src/gateway.rs:667-694 | a server response takes the slot under its own id, closes that act with its outcome and touches nothing awaiting the agent |
| Protocol.NothingCrossesUnrecorded | crates/obsign-proxy/src/gateway.rs:183-578 | what passes to the server is machinery, an awaited answer, or an act that a grant authorizes and the engine permits, whose call and allowing decision were just written; what is refused leaves a blocked effect |
| Permission.NothingUnasked | crates/obsign-proxy/src/gateway.rs:183-1071 | in every run, each decision that lets an act through follows the record of that act and is the engine's own answer about it under the delegation it is attributed to |
| Journal.ReadLines | crates/obsign-ledger/src/store.rs:230-266 | the items read and the bytes left, cutting an unreadable last line and refusing any other |
| Journal.LoadsExactly | crates/obsign-ledger/src/store.rs:230-266 | a file is read exactly when it is text whose lines, but for an unreadable last one, all hold an item or nothing; then as those items |
| Journal.LineMeans | crates/obsign-ledger/src/store.rs:230-266 | a line is its bytes up to its newline: blank, or the text of exactly one item |
| Journal.File.AppendLine | crates/obsign-ledger/src/store.rs:269-276 | the line and its newline follow what was there |
| Journal.TornAppendForgotten | crates/obsign-ledger/src/store.rs:225-266 | after a crash leaving a strict prefix of a line, reload returns exactly the acknowledged items, unless the cut falls inside a character |
| Journal.NextAppendSurvives | crates/obsign-ledger/src/store.rs:230-276 | after a crash and a reload the next acknowledged append survives exactly when the crash did not fall between a line and its newline |
| Journal.RunsSurvive | crates/obsign-ledger/src/store.rs:230-276 | over every run of appends, crashes and restarts with no such crash, a reload returns exactly the survivors |
| Journal.StoreRoundTrip | crates/obsign-ledger/src/store.rs:28-222 | a store that reopens, written to its files and read back, is the same store |
| Journal.CrashedAppendReopens | crates/obsign-ledger/src/store.rs:144-222 | a crash in the middle of a checkpoint append leaves a store that opens with the acknowledged contents |
| IdentityBundles.SigningBody | crates/obsign-identity/src/bundle.rs:51-109 | the bytes digested and signed, keys sorted by id, each format with its own segments |
| IdentityBundles.BodyIdentifiesBundle | crates/obsign-identity/src/bundle.rs:51-169 | across the three formats, two accepted bundles with the same signed body are equal up to key order |
| IdentityBundles.BodyDecidesBundle | crates/obsign-identity/src/bundle.rs:51-169 | with no key id repeated, equal bodies and equality up to key order are the same thing |
| IdentityBundles.OldFormatsCoverLess | crates/obsign-identity/src/bundle.rs:136-169 | a v1 body is blind to markers and labels and a v2 body to labels, which is why verify refuses them there |
| PolicyBundles.SigningBody | crates/obsign-policy/src/bundle.rs:151-205 | the bytes digested and signed, argument declarations only from format 2 |
| PolicyBundles.BodyIdentifiesBundle | crates/obsign-policy/src/bundle.rs:151-264 | across both formats, two accepted bundles with the same signed body are the same bundle |
| PolicyBundles.V1CoversNoArgs | crates/obsign-policy/src/bundle.rs:254-262 | any argument declarations can be put into a v1 bundle without changing its body |
| DeploymentBundles.SigningBody | crates/obsign-audit-core/src/deployment.rs:51-93 | the bytes digested and signed, with the attestation segment only when there are attestations |
| DeploymentBundles.BodyIdentifiesBundle | crates/obsign-audit-core/src/deployment.rs:51-93 | equal bodies mean bundles equal up to the order of keys and attestations, although the last segment is optional |
| DeploymentBundles.BodyDecidesBundle | crates/obsign-audit-core/src/deployment.rs:51-93 | with no id repeated, equal bodies and that equality are the same thing |
| Tpm.ReadPublic | crates/obsign-audit-core/src/attestation.rs:342-408 | the key of a marshalled public area, or refusal, branch by branch |
| Tpm.AcceptedAreasPrefixFree | crates/obsign-audit-core/src/attestation.rs:374-378 | no proper prefix and no proper extension of an accepted public area is accepted |
| Tpm.PublicReads | crates/obsign-audit-core/src/attestation.rs:342-408 | a marshalled public area is accepted exactly when scheme, curve and point are one of the two key shapes and nothing follows, and yields that key |
| Tpm.BanksFit | crates/obsign-audit-core/src/attestation.rs:512-526 | a selection that reads takes three bytes or more a bank, whatever 32-bit count it claims |
| Tpm.ReadAttest | crates/obsign-audit-core/src/attestation.rs:486-535 | the statement of an attestation, and for a quote the registers collected from its bitmaps |
| Tpm.SelectedMeans | crates/obsign-audit-core/src/attestation.rs:512-526 | the nested loops collect exactly the registers whose bit is set in some bank |
| Tpm.QuoteReads | crates/obsign-audit-core/src/attestation.rs:486-535 | a marshalled quote reads back as its own selection and digest |
| Tpm.CertifyReads | crates/obsign-audit-core/src/attestation.rs:502-506 | a marshalled certify reads back as its own name |
| TpmFormat.AcceptsExactlyAreas | crates/obsign-audit-core/src/attestation.rs:342-408 | bytes are read as a public area exactly when they are one marshalled with nothing after it, holding an Ed25519 key or the P-256 point that is read |
| TpmFormat.AcceptsExactlyQuotes | crates/obsign-audit-core/src/attestation.rs:486-535 | bytes are read as a quote exactly when they are one, made by a TPM, of these banks and this digest |
| TpmFormat.AcceptsExactlyCertifies | crates/obsign-audit-core/src/attestation.rs:486-535 | bytes are read as a certify exactly when they are one of this name |
| Attestation.CanonicalComparesSets | crates/obsign-audit-core/src/attestation.rs:239-260 | sorting, dropping repeats and comparing lists compares the sets of registers |
| Attestation.Verify | crates/obsign-audit-core/src/attestation.rs:206-280 | why an attestation is refused, if it is |
| Attestation.AcceptedMeans | crates/obsign-audit-core/src/attestation.rs:206-280 | accepted exactly when one attestation key signed a certify naming the enrolled key and a quote over exactly the expected registers, SHA-256 bank only, with their expected values |
| AttestationProof.AcceptedConsistsOf | crates/obsign-audit-core/src/attestation.rs:147-280 | accepted exactly when a valid attestation key signed, over these bytes, a certify of the SHA-256 name of what stands for the enrolled key and a quote of exactly the expected registers and digest |
| AttestationProof.RefusalSays | crates/obsign-audit-core/src/attestation.rs:147-280 | which refusal: for the keys, for what cannot be read or was not signed by the attestation key, or else for what it says, the certify first |
| AttestationProof.DigestInOrder | crates/obsign-audit-core/src/attestation.rs:239-260 | however the expectations are listed, the digest is that of their values in register order |
| Attestation.CertifyBindsOneKey | crates/obsign-audit-core/src/attestation.rs:292-327 | two accepted enrolments resting on one certify enrol the same key exactly when both carry a public area or neither does |
| Attestation.FormsOverlap | crates/obsign-audit-core/src/attestation.rs:134-145 | on a 32-byte public area that is also an Ed25519 key, one certify and one quote give two accepted enrolments of different keys |
| Der.Cursor.Tlv | crates/obsign-audit-core/src/rfc3161.rs:80-113 | the element read and where the cursor is left |
| Der.TlvRoundTrip | crates/obsign-ledger/src/anchor.rs:18-32 | the reader inverts the writer exactly for contents of up to 65535 bytes |
| Der.ReadResponse | crates/obsign-audit-core/src/rfc3161.rs:156-221 | the imprint and time of a timestamp response, or why there is none, branch by branch |
| Der.ResponseReads | crates/obsign-audit-core/src/rfc3161.rs:156-221 | a response built around an imprint and a time, as in section 2.4.2 of RFC 3161, parses to them exactly when its status grants the request |
| Der.ResponsePrefixFree | crates/obsign-audit-core/src/rfc3161.rs:126-134 | no proper prefix and no proper extension of an accepted response is accepted |
| DerFormat.TlvIs | crates/obsign-audit-core/src/rfc3161.rs:80-113 | an element is read exactly when one stands there: a one-byte tag, a definite length of at most four octets in either form, the content |
| DerFormat.AcceptsExactlyResponses | crates/obsign-audit-core/src/rfc3161.rs:126-221 | bytes are read as a granted response exactly when they are one, every container holding what it must and no more, and as refused exactly when their status refuses |
| GitIndex.ReadVarint | crates/obsign-control-plane/src/worktree.rs:479-494 | the number and where reading stopped, or refusal |
| GitIndex.VarintRoundTrip | crates/obsign-control-plane/src/worktree.rs:479-494 | the reader inverts git's offset encoding for every number below 2^32 + 128 and refuses every other |
| GitIndex.ReadEntry | crates/obsign-control-plane/src/worktree.rs:328-395 | one entry at any offset of any bytes, with no index out of bounds |
| GitIndex.EntryRoundTrip | crates/obsign-control-plane/src/worktree.rs:328-395 | every entry of the format is read back up to exactly its end: flags, padding to eight, compressed paths |
| GitIndex.ParseIndex | crates/obsign-control-plane/src/worktree.rs:314-441 | the whole file, extensions included |
| GitIndex.IndexRoundTrip | crates/obsign-control-plane/src/worktree.rs:314-441 | every index of versions 2 to 4, with any ignorable extensions and any checksum, reads back to its entries |
| IndexFormat.AcceptsExactlyIndexes | crates/obsign-control-plane/src/worktree.rs:314-441 | a file is accepted exactly when it is an index of versions 2 to 4 written out: header, entries, extensions that may all be ignored, checksum; so none with a mandatory extension |
| CacheTree.HasInvalidated | crates/obsign-control-plane/src/worktree.rs:448-477 | the scan's answer, or that the tree is corrupt |
| CacheTree.ScanMeans | crates/obsign-control-plane/src/worktree.rs:443-477 | a tree git wrote is stale exactly when some node anywhere in it is invalidated |
| CacheTree.ScansExactlyTrees | crates/obsign-control-plane/src/worktree.rs:443-477 | the scan answers exactly on trees well formed up to their end or to an invalidated node; everything else is corrupt |
| CacheTree.IntShape | crates/obsign-control-plane/src/worktree.rs:455-460 | a count is an optional sign and at least one digit, and fits 64 bits |
| CacheTree.PrintedNodeOk | crates/obsign-control-plane/src/worktree.rs:448-477 | a node whose count is printed in decimal is a well-formed one |
| CacheTree.IndexWithTree | crates/obsign-control-plane/src/worktree.rs:314-477 | an index with a cache tree reads back to its entries and to whether that tree has an invalidated node |

## Left out

- Ecdsa.Verify: is stated under the hypothesis that the field and order constants are prime; their primality is not proved.
- Curve.TimesIsSum: associativity of the affine group law is a hypothesis; verification itself is stated over double-and-add, which needs none.
- Ecdsa.BaseOnCurve: the hexadecimal constants are written as their limb values.
- Collision resistance of the digest function is never assumed outright: each theorem names the finite set of inputs that must not collide.
- Ed25519, hex decoding, JSON text and the policy engine are parameters. In the pipeline so are the bytes of a deployment bundle, the attestation check and the timestamp reader, which are modelled on their own in `DeploymentBundles`, `Attestation` and `Der`.
- Attestation.Verify: key material is held decoded; the endorsement certificate is not checked, as in the source.
- Tpm.ReadPublic: the messages that tell one malformed area from another are one refusal.
- GitIndex.ReadEntry: paths stay bytes, where the source replaces what is not UTF-8; the checksum is not checked, as in the source.
- GitIndex.ParseIndex: takes the cache-tree reader as a parameter; `CacheTree.ReadIndex` passes it the real one. The allocation sized by the unchecked 32-bit entry count is not modelled, so no claim about untrusted input covers memory, only indexing.
- Verifier.ResolveDeployment: disagreements between a bundle and listed keys are reported in bundle order rather than sorted by id.
- PolicyBundles.SigningBody: an argument's default value is held as its JSON text.
- The comparison of the index with the working tree, and SHA-1.
- Verifier.VerifyWith: message texts, first_seq and last_seq are not modelled; unknown payloads are counted in a loop of their own.
- Verifier.CheckInterval: the `empty_seal` finding is not modelled, because a nonempty interval always has a root.
- Chain.ChainWriter.Append: is stated for chains that have not used up their 64-bit sequence numbers.
- Ledger.Open: a sequence number of 2^64 - 1 does not wrap to zero as the source's addition would.
- Completeness.PipelineVerifies: a run is made of passes; anchors added between them are covered by `Completeness.ExportVerifies`, which allows any whose tokens hold.
- Failed writes to the log: a run of the gateway is one in which every write succeeds.
- Gateway.HandleFromAgent: the texts of replies are not modelled, nor are lists filtered on the way back to the agent, which touch no session state.
- Protocol.OneFateEach: holds within one session; a resumed chain restarts its counters and so its identifiers.
- Journal.ReadLines: reading, cutting and appending are modelled on the bytes of one file; directory operations and the write-then-rename of the key list are taken as atomic.
- The HTTP transport, the control plane's releases, key storage and the console.
