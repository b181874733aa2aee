# Workbench model

A model, in Dafny, of a workbench that compiles legal rules into signed, content-addressed artifacts, moves them
through a registry lifecycle, verifies them for consumers, and previews the rules they carry. It proves what the
workbench's parts promise each other. The modules follow the program's components:

| file | component |
|---|---|
| `Wire.dfy`, `Records.dfy`, `Layout.dfy`, `Truncation.dfy` | the non-self-describing wire codec, the records that travel in it, their flat byte layout, and files cut short |
| `Crypto.dfy` | hash and signature as parameters; "equal, or these two inputs collide" |
| `Artifact.dfy`, `Overlong.dfy` | the `.kew` file: assembly, strict decoding, content address; where the address does not bind |
| `Attestation.dfy`, `Verify.dfy`, `Verdicts.dfy` | expert attestations, rules R1-R8, the folded verifier, and when each rejection is given |
| `Events.dfy` | the hash-chained, signed lifecycle log |
| `Registry.dfy`, `Backend.dfy` | the stores and the seven commands: on values, and as methods of the local backend |
| `Lifecycle.dfy`, `Runs.dfy`, `Reach.dfy` | the invariant, each command's safety, whole runs |
| `Outcomes.dfy`, `Tags.dfy`, `Refusals.dfy` | the registry each command leaves, field by field; which tag moves; how each is refused |
| `Retry.dfy`, `Recompile.dfy` | what a stopped command leaves and what completes it; what compiling again strips |
| `Admission.dfy`, `Listing.dfy`, `Resolve.dfy` | who may consume an artifact; resolution by hash, tag and regime |
| `Calendar.dfy`, `Decimals.dfy`, `Literals.dfy`, `Strings.dfy` | civil dates to seconds, decimal literals and their grammar, string order |
| `Facts.dfy`, `Exec.dfy`, `Meaning.dfy` | condition semantics, the tree executor, and what rules mean apart from it |
| `Scenario.dfy`, `Suites.dfy` | the scenario generator, and what each entry of its list is for |
| `Thresholds.dfy`, `Conflicts.dfy`, `Contradictions.dfy`, `Classes.dfy` | T4 conflict detection, measured against the executor, and which class a pair gets |
| `Graph.dfy`, `ConflictGraph.dfy`, `Oracles.dfy` | the citation graph: projection, merge, the two oracles; its conflict edges from T4; the oracles said of the artifacts themselves |

How the registry results fit together. `Registry` gives each command as a trace: the registry after each of its
writes, and its result. `Backend` proves that the command methods make exactly those writes in that order.
`Lifecycle` says which single writes are safe and that safe writes keep the registry good; `Runs` proves that each
command makes only safe writes and when it succeeds; `Reach` concludes for every run, a command being stopped
between two writes counting as a step; `Retry` and `Recompile` say what can be put right afterwards; `Admission` and
`Resolve` say what consumers may then rely on.

Everything outside the program is a parameter: BLAKE3 (any function into 32 bytes), Ed25519 (verification accepts
what signing produced, sections 5.1.6 and 5.1.7 of RFC 8032), the clock, the canonical profile of a rule, the
printed form of a float. `Honest(w)` collects the two hypotheses: signatures verify, and canonicalised content
passes validation.

Where the code and its comments differ the model follows the code:

- `resolve` is documented as recomputing the content hash; it compares the hash the stored manifest claims
  (`Resolve.ResolutionReadsTheClaim`). In registries made by the commands the two agree.
- `with_attestations` is documented as reproducing the envelope byte for byte. That holds for assembled records, and
  for a decoded file exactly when its varints were of least length (`Artifacts.ReencodeKeepsEnvelopeExactly`); files
  valid in every other respect that change when written again exist (`Artifacts.LooseFileVerifies`).
- The hash slot is documented as following the encoded kind; hashing zeroes the slot as the writer places it, which is
  another place when a file writes its kind over-long (`Artifacts.VerifiedPrefix`). For such files the address does not
  bind the envelope: `Overlong.OneAddressTwoEnvelopes` gives two whole files at one address whose envelopes differ
  without a collision, and `Artifacts.AddressBindsEnvelope` is the exact condition for all pairs of files.
- A recompile of content with a history is refused, but only after it has replaced the attested bytes
  (`Recompile.RecompileStripsAdmission`, `Recompile.RecompileEndsAdmission`); when admission can be had back is
  `Recompile.RestorableExactly`.
- A command stopped between its writes can be repeated only in the cases of `Retry.RetryExactly`. A compile stopped
  after its draft event and a check stopped after its block stay where they are for good (`Reach.TornIsFinal`), a
  revocation stopped after its event never gets its record (`Retry.UnrecordedIsFinal`), and a stopped publish is
  completed by a rollback (`Retry.StoppedPublishIsRolledBack`).
- The compiler's literals are documented as digits with an optional minus and fraction; a plus sign and a point with digits
  on one side only are read too (`Literals.ParseExactly`).
- T4 documents that disjoint values on a field cannot co-apply. That is exact for text operands
  (`Conflicts.TextScopesOverlapExactly`) and fails for numbers and booleans (`Conflicts.NumericPremisesCanMislead`,
  `Conflicts.BooleanPremisesCanMislead`); `Conflicts.Meets` is the condition for all operands.
- T4 words a contradiction as a shared scenario. Consistency of the paths does not give one
  (`Contradictions.ConsistentPathsMayNeverMeet`); `Contradictions.ContradictionReachedExactly` says when there is one.

## Model

| member | source | states |
|---|---|---|
| Wire.RoundTrip | crates/ke-artifact/src/artifact.rs:6-31 | every value of a shape, followed by any bytes, reads back exactly and leaves exactly those bytes |
| Wire.Local | crates/ke-artifact/src/artifact.rs:28-31 | a read is self-delimiting: the bytes it consumed give the same value whatever follows them |
| Wire.PrefixRecovered | crates/ke-artifact/src/attestation.rs:6-14 | reading a record's leading fields out of the whole record and cutting there gives exactly the encoding of those fields |
| Wire.EncInjective | crates/ke-cli/src/registry/event.rs:141-151 | two values of one shape with the same bytes are the same value |
| Wire.DecFits | crates/ke-artifact/src/artifact.rs:373-390 | whatever a read yields is a value of the shape it was read at |
| Wire.TightExactly | crates/ke-artifact/src/artifact.rs:352-356 | writing a read value again gives its bytes back if and only if every varint among them (integers, lengths, discriminants) was of least length; it never gives more bytes |
| Records.ManifestRoundTrip | crates/ke-artifact/src/artifact.rs:11-16 | a manifest, all thirteen fields, survives the wire |
| Records.AttestationRoundTrip | crates/ke-artifact/src/attestation.rs:44-83 | an attestation, all eighteen fields, survives the wire |
| Records.EventValInjective | crates/ke-cli/src/registry/event.rs:77-107 | distinct events have distinct wire values |
| Layout.VarintMeans | crates/ke-artifact/src/artifact.rs:28-31 | a varint's bytes spell its number seven bits each, least significant first; every byte but the last says that more follow, and the last is not wasted |
| Layout.ManifestLayout | crates/ke-artifact/src/artifact.rs:11-16 | a manifest on the wire is its thirteen fields in declaration order, each in its own bytes |
| Layout.AttestationLayout | crates/ke-artifact/src/attestation.rs:39-83 | what an attestation's signature covers is its seventeen other fields in declaration order, and the signature follows them |
| Layout.EventLayout | crates/ke-cli/src/registry/event.rs:77-107 | what the registry root signs is an event's nine other fields in declaration order, and the signature follows them |
| Layout.FileLayout | crates/ke-artifact/src/artifact.rs:11-31 | a whole file, byte for byte: the manifest's fields, payload, span index, audit versions, consistency block, compiler signature, attestations, draft marker |
| Truncation.CutEnds | crates/ke-artifact/src/artifact.rs:373-390 | bytes a value was read from, over-long varints included, cut anywhere before where the read stopped, read as ended: never as another value, never as malformed |
| Truncation.CutEnvelopeRefused | crates/ke-artifact/src/artifact.rs:373-379 | any readable file cut inside its envelope is refused as truncated |
| Truncation.CutTailRefused | crates/ke-artifact/src/artifact.rs:381-390 | cut anywhere after its envelope it is refused as malformed |
| Truncation.CarriedOnRefused | crates/ke-artifact/src/artifact.rs:387-389 | followed by any bytes at all it is refused for them |
| Truncation.UnknownKindRefused | crates/ke-artifact/src/artifact.rs:373-379 | a file whose first byte names no kind is refused as malformed, whatever follows |
| Artifacts.AssemblePayload | crates/ke-artifact/src/artifact.rs:265-337 | the byte-level assembly (encode once, patch the buffer in place, sign it, append) computes the record-level `Assemble`, whose content `Artifacts.AssembledExactly` gives field by field |
| Artifacts.AssembledExactly | crates/ke-artifact/src/artifact.rs:265-337 | assembly succeeds if and only if four texts are in normal form, the dates are plausible and every rule has a canonical form, and fails as non-canonical otherwise; the record holds the manifest given, the audit versions given, the rules in canonical form with their span index (or the intent as given with an empty one), no consistency block and no attestations, under the key named |
| Artifacts.Overwrite | crates/ke-artifact/src/artifact.rs:306-307 | copies 32 bytes over a buffer in place and changes nothing else |
| Artifacts.PatchIsReencode | crates/ke-artifact/src/artifact.rs:33-38 | zero-then-patch: overwriting the slot of an encoded envelope is encoding the record with that hash |
| Artifacts.ReadParts | crates/ke-artifact/src/artifact.rs:373-390 | a file that reads splits into well-shaped parts, its envelope is a proper prefix, and the 32 bytes after the kind, however many bytes that took, hold the record's hash |
| Artifacts.DecodeEncode | crates/ke-artifact/src/artifact.rs:373-429 | strict decoding returns exactly the encoded record and its envelope length when the record is canonical, and the specific error otherwise; accepted if and only if canonical |
| Artifacts.AssembleRoundTrip | crates/ke-artifact/src/artifact.rs:265-337 | an assembled file decodes to the assembled record with its exact envelope length, rehashes to its address and carries a valid signature if kind and payload agree, and is refused as a kind mismatch otherwise |
| Artifacts.SealedVerifies | crates/ke-artifact/src/hash.rs:49-57 | a canonical sealed record decodes, rehashes to its address and verifies under the signing key |
| Artifacts.AttestationsStayOutside | crates/ke-artifact/src/artifact.rs:345-359 | replacing the attestations keeps every envelope byte, the content hash, canonicity and the seal |
| Artifacts.ComputeContentHash | crates/ke-artifact/src/hash.rs:31-41 | the copy-and-zero-fill hash equals the specification, truncated prefixes included |
| Artifacts.VerifiedPrefix | crates/ke-artifact/src/hash.rs:49-57 | acceptance means the slot after the kind holds the address, and the address is the hash of the file's own envelope with the 32 bytes from offset one zeroed: the slot itself when the kind takes one byte |
| Artifacts.AddressBindsEnvelope | crates/ke-artifact/src/hash.rs:19-57 | two files that verify at one address have byte-identical envelopes, or colliding zeroed envelopes, if and only if zeroing does not hide their difference: kinds in over-long forms of different lengths, and otherwise one length, one first byte and one remainder after the 32 bytes zeroed |
| Artifacts.OverlongKindsShareHash | crates/ke-artifact/src/hash.rs:19-41 | the exception is real for prefixes: two different ones, writing the kind in two and in three bytes, hold one hash in their slots and have one content hash under every hash function |
| Overlong.OverlongVerifies | crates/ke-artifact/src/hash.rs:49-57 | a regime pack whose kind is written in two or three bytes decodes, and verifies when its address is the hash of its envelope with 32 bytes zeroed from offset one |
| Overlong.OneAddressTwoEnvelopes | crates/ke-artifact/src/hash.rs:31-57 | two such files, whole and accepted by the profile, verify at one address with different envelopes that zeroing makes equal, under every suite whose hash of that zeroed envelope ends in two zero bytes |
| Overlong.AddressNeedNotBind | crates/ke-artifact/src/hash.rs:31-57 | there is a suite with sound signatures under which two such files exist |
| Artifacts.NaiveHashFails | crates/ke-artifact/src/artifact.rs:40-46 | the hash of the whole file equals the address exactly when an explicit collision exists; the hash of the patched prefix, exactly when there is one or the 32 bytes to be zeroed are zero already |
| Artifacts.ReencodeKeepsEnvelopeExactly | crates/ke-artifact/src/artifact.rs:352-356 | encoding a decoded file again reproduces its envelope byte for byte if and only if every varint in the envelope was of least length |
| Artifacts.LooseFileVerifies | crates/ke-artifact/src/artifact.rs:352-356 | for every canonical record with a short span index there is a file, sealed over its own bytes, that decodes to the record so sealed, rehashes to its address and carries a valid signature, yet whose envelope encoding again does not reproduce |
| Artifacts.RewrittenFileVerifiesExactly | crates/ke-artifact/src/artifact.rs:345-359 | a verified file written again with other attestations verifies again if and only if its varints were of least length or the two zeroed envelopes collide |
| Attestations.RecoverPrefix | crates/ke-artifact/src/attestation.rs:222-228 | cutting where the payload view stopped yields the encoding of every field but the signature |
| Attestations.SigningVerifies | crates/ke-artifact/src/attestation.rs:234-242 | signing ignores and overwrites any earlier signature, is repeatable, and verifies |
| Attestations.ValidExactly | crates/ke-artifact/src/attestation.rs:251-373 | an attestation passes R1-R5 and R8 if and only if all the named conditions hold |
| Attestations.NothingVerifiesElsewhere | crates/ke-artifact/src/attestation.rs:275-294 | outside the local environment a set is accepted if and only if it is empty and nothing is required |
| Attestations.VerifySet | crates/ke-artifact/src/attestation.rs:391-462 | the collecting loops report exactly the specified rejections in order, none exactly when the set holds |
| Attestations.NoRejectionsIffSetHolds | crates/ke-artifact/src/attestation.rs:391-462 | no rejection if and only if every member is valid, every required type meets max(1, minimum), and an approval has its kind's co-attestations |
| Attestations.VerdictIgnoresOrder | crates/ke-artifact/src/attestation.rs:430-455 | reordering the attestations never changes acceptance |
| Verdicts.StampBinds | crates/ke-artifact/src/tsa.rs:93-116 | the stamped message fixes the hash and the time it is over |
| Verdicts.IntegrityRejections | crates/ke-artifact/src/attestation.rs:251-294 | when the key is unknown, the signature bad, the timestamp class wrong or unsupported, or the stamp not local is what is reported: an if-and-only-if for each |
| Verdicts.KeyRejections | crates/ke-artifact/src/attestation.rs:296-326 | the same for a revoked key, an expired one and one not authorised for the claim under its role, once the signature and stamp hold |
| Verdicts.BindingRejections | crates/ke-artifact/src/attestation.rs:328-373 | the same for an attestation of another artifact (with both hashes), an unsupported version, a lapsed one and a changed legal source, once the key is authorised |
| Verdicts.CountIsPositions | crates/ke-artifact/src/attestation.rs:404-428 | what is counted of a claim is how many valid attestations make it |
| Verdicts.RequiredIsMinimum | crates/ke-artifact/src/attestation.rs:412-420 | the count asked is the policy's first minimum for the claim, never less than one |
| Verdicts.ReportedExactly | crates/ke-artifact/src/attestation.rs:391-462 | a rejection is in the report on a set if and only if it is some member's own, or a required claim falls short of its minimum (with claim, minimum and count), or a valid approval lacks the source attestation or, for anything but an intent spec, the scenario attestation |
| Verification.VerifiedExactly | crates/ke-artifact/src/verify.rs:246-342 | the verified verdict holds if and only if hash, compiler signature, attestation set, published status and live head all do |
| Verification.CryptoBeforeRegistry | crates/ke-artifact/src/verify.rs:284-342 | a failure of the file's own checks is reported whatever the registry evidence |
| Verdicts.ReasonExactly | crates/ke-artifact/src/verify.rs:246-342 | each reason a file is turned down for is given if and only if its own check fails and all earlier ones hold, with the decoder's error, the set's rejections, the status or both heads |
| Events.RecoverPrefix | crates/ke-cli/src/registry/event.rs:132-139 | the recovered event prefix is every field but the signature |
| Events.SigningVerifies | crates/ke-cli/src/registry/event.rs:153-178 | a signed event verifies under the root key |
| Events.CanonicalInjective | crates/ke-cli/src/registry/event.rs:141-146 | events with the same canonical bytes are the same event |
| Events.WalkLog | crates/ke-cli/src/registry/mod.rs:235-258 | the loop equals the specification and reports the first fault of the log |
| Events.FaultExactly | crates/ke-cli/src/registry/mod.rs:235-258 | each fault is found at an event if and only if the number, the presence of a link, the link or the signature is the first thing wrong with it; none exactly when all are right |
| Events.CurrentState | crates/ke-cli/src/registry/mod.rs:223-258 | accepts exactly the valid logs and then gives the last event's state |
| Events.HeadPinsLog | crates/ke-cli/src/registry/event.rs:148-151 | two valid logs whose heads have equal chain hash are equal, or two events collide |
| Registry.RecordedPolicy | crates/ke-cli/src/commands/revoke.rs:59-80 | never below the floor of a stated reason, a configured policy is kept, refused exactly when both inputs are missing or the policy is below the floor; `Outcomes.PolicyDecided` gives the decision reason by reason |
| Outcomes.PolicyDecided | crates/ke-cli/src/commands/revoke.rs:59-80 | the configured policy, else hard stop for a compromised key or legal invalidity, finish-pinned for supersession, audit-only for an advisory; refused as too lax or as missing exactly in the other cases |
| Outcomes.CompileLeaves | crates/ke-cli/src/commands/compile.rs:158-295 | a successful compile leaves exactly two changes: under the address it reports, a sealed record that holds the manifest (kinded by the payload), the canonical rules or the intent and the audit versions given, and a history of a draft entry and a verified entry by the compiler, each chained, numbered, stamped now and signed |
| Outcomes.UncleanStaysDraft | crates/ke-cli/src/commands/compile.rs:254-280 | bytes that do not pass the structural gate get the draft entry only |
| Outcomes.MlCheckLeaves | crates/ke-cli/src/commands/ml_check.rs:47-110 | a successful check leaves the entry and the block of that time, and nothing else changed |
| Outcomes.AttestLeaves | crates/ke-cli/src/commands/attest.rs:145-278 | a successful attest leaves the entry, and the stored record with exactly one attestation for each claim asked, in order, every field of it given by the manifest, the claim and the time, and changes nothing else |
| Outcomes.PublishLeaves | crates/ke-cli/src/commands/publish.rs:39-109 | a successful publish leaves the entry and its own tag of its own environment pointing at the artifact by that entry, and changes nothing else |
| Outcomes.DeprecateLeaves | crates/ke-cli/src/commands/deprecate.rs:23-60 | a successful deprecation leaves the entry and changes nothing else |
| Outcomes.RevokeLeaves | crates/ke-cli/src/commands/revoke.rs:120-177 | a successful revocation leaves the entry and a record of the policy decided, the reason, the entry it rests on, the severity and the class given, and changes nothing else |
| Outcomes.RollbackLeaves | crates/ke-cli/src/commands/rollback.rs:35-66 | a successful rollback leaves a tag-moved entry and its own tag pointing at the target by that entry, and changes nothing else |
| Tags.TagsMoveExactly | crates/ke-cli/src/registry/backend.rs:323-344 | under any command, stopped anywhere, tags change if and only if a publish or rollback that succeeds gets to its second write, and then only the tag it names |
| Tags.PointedTagResolves | crates/ke-cli/src/commands/publish.rs:97-109 | right after a publish or rollback its environment and tag resolve to its artifact, Published by that very event |
| Tags.OtherTagsStay | crates/ke-cli/src/commands/publish.rs:97-109 | and after any command every other tag resolves to its own target as before |
| Refusals.CompileRefused | crates/ke-cli/src/commands/compile.rs:73-246 | a compile that fails fails for blocking findings, else for what assembly refuses, else because the address has a history |
| Refusals.MlCheckRefused | crates/ke-cli/src/commands/ml_check.rs:47-110 | a check that fails fails for the state the history stands in, else because there is a block already |
| Refusals.AttestRefused | crates/ke-cli/src/commands/attest.rs:145-278 | an attest that fails fails for want of claims, else for the state, else for rejections, of which there are some |
| Refusals.PublishRefused | crates/ke-cli/src/commands/publish.rs:39-109 | a publish that fails fails for the state, else for an unreadable policy, else for rejections, of which there are some |
| Refusals.DeprecateRefused | crates/ke-cli/src/commands/deprecate.rs:23-60 | a deprecation that fails fails for the state, else for want of a sequence number |
| Refusals.RevokeRefused | crates/ke-cli/src/commands/revoke.rs:120-177 | a revocation that fails fails for the policy, else for the state, else for want of a sequence number |
| Refusals.RollbackRefused | crates/ke-cli/src/commands/rollback.rs:35-66 | a rollback that fails fails for want of a history, else as ineligible in the state found, else for want of a sequence number |
| Refusals.PublishExactly | crates/ke-cli/src/commands/publish.rs:39-109 | a publish succeeds if and only if the history stands at expert_attested and the stored attestations satisfy the policy: built-in, approval with source and (but for an intent spec) scenarios inside the key window; a bundle, its own minimum counts, with the same companions of any approval |
| Backend.LocalFsBackend.PutArtifact | crates/ke-cli/src/registry/backend.rs:256-272 | overwrites one address and nothing else |
| Backend.LocalFsBackend.AppendEvent | crates/ke-cli/src/registry/backend.rs:274-321 | files an event in sequence order, or refuses an occupied number and kind and changes nothing |
| Backend.LocalFsBackend.PutPointer | crates/ke-cli/src/registry/backend.rs:323-344 | overwrites one tag |
| Backend.LocalFsBackend.PutConsistency | crates/ke-cli/src/registry/backend.rs:404-422 | writes a block once, refuses a second |
| Backend.LocalFsBackend.PutRevocation | crates/ke-cli/src/registry/backend.rs:439-456 | writes a record once, refuses a second |
| Backend.LocalFsBackend.RequireCurrentState | crates/ke-cli/src/registry/mod.rs:542-548 | the validated state, no-state or the log's fault |
| Backend.LocalFsBackend.HeadEvent | crates/ke-cli/src/registry/mod.rs:530-538 | the head of a validated log |
| Backend.LocalFsBackend.Compile | crates/ke-cli/src/commands/compile.rs:214-295 | result and every registry in between: bytes, draft event, verified event |
| Backend.LocalFsBackend.MlCheck | crates/ke-cli/src/commands/ml_check.rs:47-110 | result and every registry in between: block, then event |
| Backend.LocalFsBackend.Attest | crates/ke-cli/src/commands/attest.rs:145-278 | result and every registry in between: bytes re-filed before the gate, then event |
| Backend.LocalFsBackend.Publish | crates/ke-cli/src/commands/publish.rs:39-109 | result and every registry in between: policy gate, event, then pointer |
| Backend.LocalFsBackend.Deprecate | crates/ke-cli/src/commands/deprecate.rs:23-60 | result and the one event |
| Backend.LocalFsBackend.Revoke | crates/ke-cli/src/commands/revoke.rs:120-177 | result and every registry in between: policy decided first, event, then record |
| Backend.LocalFsBackend.Rollback | crates/ke-cli/src/commands/rollback.rs:35-66 | result and every registry in between: tag-moved event, then pointer |
| Backend.SignEach | crates/ke-cli/src/commands/attest.rs:176-206 | one signed attestation per requested type, in order |
| Lifecycle.EdgeIffPermitted | crates/ke-cli/src/registry/mod.rs:105-123 | the edges of the table are those some preconditions permit |
| Lifecycle.FollowsKeepsLog | crates/ke-cli/src/registry/mod.rs:504-528 | appending a chained, signed, legal event keeps a log valid and is never refused |
| Lifecycle.PublishedShape | crates/ke-cli/src/registry/mod.rs:105-123 | a valid legal Published log is the five forward steps once each in order, then tag moves only |
| Lifecycle.ReachedBelow | crates/ke-cli/src/registry/mod.rs:105-123 | a log has reached a state up to Published if and only if it stands at or beyond it |
| Lifecycle.SafeKeepsGood | crates/ke-cli/src/registry/backend.rs:58-140 | each kind of write the commands make preserves the registry invariant |
| Lifecycle.SafeKeepsPublications | crates/ke-cli/src/commands/publish.rs:57-87 | published artifacts stay fully attested or bare when only complete sets are published |
| Runs.MlCheckSafe | crates/ke-cli/src/commands/ml_check.rs:47-110 | succeeds if and only if structurally verified with no block yet; writes block and event, or nothing |
| Runs.AttestSafe | crates/ke-cli/src/commands/attest.rs:145-278 | succeeds if and only if ml-checked, some type is given, the key window is open and an approval comes with its co-types; on failure at most the bytes were written |
| Runs.PublishSafe | crates/ke-cli/src/commands/publish.rs:39-109 | succeeds if and only if expert-attested and the gate under the chosen policy reports nothing; writes event and pointer, or nothing |
| Runs.DeprecateSafe | crates/ke-cli/src/commands/deprecate.rs:23-60 | succeeds if and only if Published with sequence numbers left |
| Runs.RevokeSafe | crates/ke-cli/src/commands/revoke.rs:120-177 | succeeds if and only if the policy is decided and the artifact Published or Deprecated with numbers left; the record is never refused |
| Runs.RollbackSafe | crates/ke-cli/src/commands/rollback.rs:35-66 | succeeds if and only if the target is Published with numbers left |
| Runs.StoreSafe | crates/ke-cli/src/commands/compile.rs:214-295 | on a fresh address three writes reach structurally verified; on a known one only the bytes are re-filed and the call is refused |
| Runs.CompileFiled | crates/ke-cli/src/commands/compile.rs:73-158 | what compiling files is canonical, sealed under its own address, bare, and passes the compiler gate |
| Runs.RewriteFiled | crates/ke-cli/src/commands/attest.rs:206-226 | what attesting files is the same sealed record at the same address with the expert's attestations |
| Runs.ExpertSetAccepted | crates/ke-cli/src/commands/attest.rs:88-127 | expert attestations are accepted if and only if the key window is open, counts are met and approvals covered |
| Reach.CommandSafe | crates/ke-cli/src/registry/mod.rs:98-123 | from a good registry every command makes only safe writes, in its own order, about one artifact |
| Reach.EveryRegistryIsSound | crates/ke-cli/src/registry/mod.rs:235-258 | in every registry any run reaches, commands stopped anywhere: logs walk clean with legal steps about their artifact, files rehash to their address, tags target published artifacts, revocation records belong to revoked ones |
| Reach.PublishedHistory | crates/ke-cli/src/registry/mod.rs:105-123 | a Published artifact of any run went through the five steps once each in order, then tag moves only |
| Reach.LogsOnlyGrow | crates/ke-cli/src/registry/backend.rs:274-284 | no command, stopped anywhere, rewrites a log, and none adds to a revoked one |
| Reach.RevokedIsFinal | crates/ke-cli/src/registry/mod.rs:118-121 | a revoked log never grows again in any continuation |
| Reach.FailureWritesOnlyBytes | crates/ke-cli/src/commands/compile.rs:237-246 | a command that returns an error leaves logs, tags and sidecars unchanged |
| Reach.SidecarsExactlyWhereReached | crates/ke-cli/src/commands/ml_check.rs:58-105 | when commands run to their end, blocks and records exist exactly where their states have been reached |
| Reach.TornIsFinal | crates/ke-cli/src/commands/ml_check.rs:75-105 | an artifact whose compile stopped after its draft event, or whose check stopped after its block, never gets another event in any continuation |
| Retry.RetryExactly | crates/ke-cli/src/commands/compile.rs:237-295 | a command that would have succeeded, stopped after some but not all of its writes, succeeds when called again at any time if and only if it is a compile that had filed its bytes only, an attest repeated inside the key window, or a rollback with a sequence number left |
| Retry.TornCompileIsReached | crates/ke-cli/src/commands/compile.rs:237-295 | whatever compiles can be torn in its compile, starting from the empty registry |
| Retry.TornCheckIsReached | crates/ke-cli/src/commands/ml_check.rs:75-105 | whatever compiles can be torn in its check, starting from the empty registry |
| Retry.StoppedPublishIsRolledBack | crates/ke-cli/src/commands/publish.rs:89-109 | a publish stopped before its pointer is completed by rolling that tag back to the same artifact, at any later time |
| Retry.StoppedIsUnrecorded | crates/ke-cli/src/commands/revoke.rs:149-171 | a revocation stopped after its event leaves the artifact revoked with no record |
| Retry.UnrecordedIsFinal | crates/ke-cli/src/commands/revoke.rs:120-177 | and in no continuation does it ever get one |
| Admission.LiveHeadMeansStillPublished | crates/ke-cli/src/commands/export_provenance.rs:70-89 | a verified verdict against the head of a live valid log means the live log is the exported one and still Published, or two events collide |
| Admission.PublishSucceedsExactly | crates/ke-cli/src/commands/publish.rs:39-109 | a publish under the built-in policy succeeds if and only if expert-attested, complete and in the key window |
| Admission.PublishedIsAdmitted | crates/ke-cli/src/commands/graph_export.rs:112-191 | right after such a publish the artifact is admitted locally at any later time in the key window |
| Admission.AdmitExactly | crates/ke-cli/src/commands/graph_export.rs:112-191 | in a good registry an address is admitted if and only if Published with an acceptable set, and admission never errs |
| Refusals.AdmittedOrTold | crates/ke-cli/src/commands/graph_export.rs:112-191 | in a good registry an address is refused as unreadable when nothing is stored, else with the status of a history not at published, else admitted when approved and accompanied locally inside the key window, else refused for rejections, of which there are some |
| Admission.AdmittedExactlyWhenPublishedAndAttested | crates/ke-cli/src/commands/graph_export.rs:112-191 | after any run without policy overrides: admitted if and only if Published, local, in the key window, and the stored bytes still carry attestations |
| Admission.ExportAll | crates/ke-cli/src/commands/graph_export.rs:51-84 | every address is exported or refused, in order; exported exactly the admitted ones, refused each with the reason admission gives |
| Recompile.RecompileStripsAdmission | crates/ke-cli/src/commands/compile.rs:237-257 | compiling content that has a history errs and leaves its log as it was, but only after replacing the stored bytes by bare ones; right after, the artifact is refused whatever its log says |
| Recompile.StrippedIsRefusedForGood | crates/ke-cli/src/commands/compile.rs:237-257 | bare bytes under a log at expert_attested or beyond are refused in every continuation, in any environment, at any time |
| Recompile.RecompileEndsAdmission | crates/ke-cli/src/commands/compile.rs:237-257 | from the empty registry, whatever compiles is admitted locally once checked, attested with every claim and published under the built-in policy; compiling it again errs, leaves the log as it was, and the artifact is refused in every continuation |
| Recompile.RestorableExactly | crates/ke-cli/src/commands/graph_export.rs:112-191 | an artifact with a history and bare bytes is admitted again in some continuation if and only if its log is below expert_attested and it is not torn |
| Resolve.FindMatches | crates/ke-cli/src/registry/mod.rs:360-377 | the loop equals its specification, first bad log included |
| Resolve.ListManifests | crates/ke-cli/src/registry/backend.rs:357-378 | the stored manifests in the order of their claimed hashes, each as often as it was read, or the first undecodable file's error |
| Listing.SortByHash | crates/ke-cli/src/registry/backend.rs:376-376 | the listing rearranged into hash order, equal hashes as they came |
| Listing.OneOrder | crates/ke-cli/src/registry/backend.rs:376-376 | in order and of distinct hashes, a listing is determined by which manifests it holds |
| Resolve.ListedAlike | crates/ke-cli/src/registry/backend.rs:357-378 | unless two stored files claim one hash or one does not decode, every order the directory is read in gives one listing |
| Resolve.ListingOrderIsIrrelevant | crates/ke-cli/src/registry/mod.rs:335-450 | in such a registry every selector resolves alike whatever order the directory is read in |
| Resolve.GoodClaimsDistinct | crates/ke-cli/src/registry/backend.rs:357-378 | registries the commands made are such registries |
| Resolve.RegimeResolvesExactly | crates/ke-cli/src/registry/mod.rs:352-390 | resolution by regime succeeds if and only if exactly one artifact is Published and effective, from its first day and before its last; it returns that one as it stands, which rehashes; otherwise it fails as not found, or as ambiguous with the number there are |
| Resolve.HashResolvesExactly | crates/ke-cli/src/registry/mod.rs:335-420 | resolution by hash fails as not found without a history, and otherwise reports state, last event's kind, the stored policy version and any revocation record |
| Resolve.TagResolvesExactly | crates/ke-cli/src/registry/mod.rs:342-351 | a tag that does not exist is not found; any other resolves to its target, published at some time, and reports it as it stands |
| Resolve.ResolutionReadsTheClaim | crates/ke-cli/src/registry/mod.rs:422-450 | resolution compares the claimed hash and does not rehash: outside command-made registries a file can resolve and fail `VerifyHash` |
| Calendar.EraIsFloor | crates/ke-artifact/src/attestation.rs:483-488 | the truncating era computation is floor division, negative years included |
| Calendar.IntermediatesInRange | crates/ke-artifact/src/attestation.rs:483-492 | year of era in 0..399, day of year in 0..365, day of era in 0..146096 |
| Calendar.EpochIsZero | crates/ke-artifact/src/attestation.rs:483-492 | 1970-01-01 is second 0 |
| Calendar.NextDayAddsOneDay | crates/ke-artifact/src/attestation.rs:483-492 | each next calendar day adds exactly 86400 |
| Calendar.CountsDays | crates/ke-artifact/src/attestation.rs:480-492 | n days later is n times 86400 seconds later |
| Calendar.StrictlyIncreasing | crates/ke-artifact/src/attestation.rs:480-492 | calendar order and second order agree, both ways, over all real dates with 16-bit years |
| Calendar.ExpiryFollowsCalendar | crates/ke-artifact/src/attestation.rs:354-362 | on any second of a day, R4 expires an attestation if and only if that day is not before the expiration date |
| Calendar.WindowsAgree | crates/ke-runtime/src/effective.rs:20-41 | the registry's and the runtime's window tests accept the same dates |
| Calendar.SharedDateExactly | crates/ke-compiler/src/verify/t4.rs:217-229 | two windows share a date if and only if neither is empty and each opens before the other closes, an open one never closing |
| Calendar.OverlapRightExactly | crates/ke-compiler/src/verify/t4.rs:221-229 | over all windows, the overlap test means a shared date if and only if: for non-empty windows that meet, no open one faces a window opening on or after the last date; with an empty one, either opens no earlier than the other is taken to end |
| Calendar.OverlapIffSharedDate | crates/ke-compiler/src/verify/t4.rs:221-229 | so non-empty windows opening before the last date overlap if and only if some date lies in both |
| Calendar.OverlapNeedsProper | crates/ke-compiler/src/verify/t4.rs:221-229 | an empty window or one opening on the last date breaks that equivalence |
| Decimals.PrintParse | crates/ke-runtime/src/value.rs:176-191 | printing then parsing is the identity for scale 0..127, except for the least 128-bit mantissa |
| Decimals.PrintNegativeScale | crates/ke-runtime/src/value.rs:176-191 | a negative scale prints as the integer it denotes |
| Decimals.FoldIsCanonical | crates/ke-cli/src/commands/compile.rs:460-478 | stripping trailing zeros keeps the number and ends canonical |
| Decimals.FoldDecidesEquality | crates/ke-cli/src/commands/compile.rs:433-478 | two decimals denote one number if and only if they fold to the same value |
| Decimals.ParseCanonical | crates/ke-cli/src/commands/compile.rs:433-478 | accepts exactly the compiler's literals, with the same number in canonical form, and each error means what it says |
| Decimals.CanonicalUnique | crates/ke-compiler/src/value.rs:54-85 | one canonical form per number |
| Literals.LeadingDigit | crates/ke-compiler/src/value.rs:54-85 | digits count by their place, the leading one most |
| Literals.ParseExactly | crates/ke-compiler/src/value.rs:54-85 | a text parses, and to which decimal, if and only if it is blanks, an optional sign, digits before or after an optional point with at least one in all, blanks, within 128 bits and 127 places |
| Strings.SortDedup | crates/ke-runtime/src/exec.rs:59-64 | sorted, duplicate-free, same elements |
| Strings.LessExactly | crates/ke-runtime/src/compare.rs:63-84 | one text is less than another if and only if it ends or has the smaller character where they first differ |
| Exec.Flatten | crates/ke-runtime/src/exec.rs:178-190 | pushes the flattened conditions in order, after whatever was there; what flattening makes of groups is `Meanings.PlainGroup`, `Meanings.SpliceKeeps` and `Meanings.FlatAsks` |
| Meanings.PlainGroup | crates/ke-runtime/src/exec.rs:178-190 | a group of plain conditions flattens to them; a group uses its `all` unless empty, else its `any` |
| Meanings.SpliceKeeps | crates/ke-runtime/src/exec.rs:178-190 | a nested group put in the list as its own used members flattens to the same, wherever it stands |
| Meanings.FlatAsks | crates/ke-runtime/src/exec.rs:178-190 | a condition is in the flattened list if and only if some used member, at any depth, is it |
| Meanings.AppliesExactly | crates/ke-runtime/src/exec.rs:83-157 | a rule with a non-empty `all` applies if and only if every condition it uses at any depth holds; with any other group, if and only if one does or it uses none; with no group, always |
| Exec.RunChecks | crates/ke-runtime/src/exec.rs:124-157 | the short-circuit loop gives the all/any meaning (with no checks, true for all and false for any) and records a shortest deciding prefix |
| Exec.StepsAreShortest | crates/ke-runtime/src/exec.rs:124-157 | the recorded steps are a shortest deciding prefix |
| Exec.ShortestIsUnique | crates/ke-runtime/src/exec.rs:124-157 | only one recording is shortest |
| Exec.Applicability | crates/ke-runtime/src/exec.rs:124-157 | applicability is the meaning of the flattened group, no group meaning applicable |
| Exec.ExactlyOnePathAgrees | crates/ke-runtime/src/exec.rs:9-11 | for every tree and facts exactly one row of the path table agrees |
| Exec.Walk | crates/ke-runtime/src/exec.rs:194-212 | the walk ends, records that row's branches and returns its leaf |
| Exec.EvaluateRule | crates/ke-runtime/src/exec.rs:83-121 | evaluation is applicability, then the walk |
| Meanings.NodeExactly | crates/ke-runtime/src/exec.rs:194-212 | at a node the answer picks the true or the false branch and is the first step of the path; decision, obligations and the rest of the path are the branch's |
| Meanings.LeafExactly | crates/ke-runtime/src/exec.rs:83-121 | at a leaf an applicable rule gives its result and obligations; an inapplicable one gives no decision, obligations or path |
| Meanings.StepsExactly | crates/ke-runtime/src/exec.rs:124-157 | the applicability steps are the shortest prefix of the used conditions that settles the rule in its mode |
| Meanings.IntegerAgainstDecimal | crates/ke-runtime/src/compare.rs:34-84 | the six comparisons of a whole number or truth value with a decimal, in whole-number arithmetic |
| Meanings.FractionAgainstNumber | crates/ke-runtime/src/compare.rs:34-84 | the six comparisons of a fraction with a number or truth value |
| Meanings.TextAgainstText | crates/ke-runtime/src/compare.rs:34-84 | the six comparisons of texts, by the first character that differs |
| Meanings.OthersDoNotCompare | crates/ke-runtime/src/compare.rs:19-84 | no other kinds compare: ordering is false, equality holds of lists item by item and of nothing else, presence of anything but null |
| Meanings.MembershipExactly | crates/ke-runtime/src/compare.rs:86-96 | membership in lists of texts and of truth values is membership; nothing is in an operand that is no list |
| Meanings.IntegerMembership | crates/ke-runtime/src/compare.rs:86-96 | membership of a whole number in a list of whole numbers is membership |
| Meanings.ListsPrint | crates/ke-runtime/src/value.rs:102-155 | how members print inside a list, texts quoted, and the name of a missing value |
| Meanings.MissingIsNull | crates/ke-runtime/src/value.rs:94-97 | no condition tells a missing fact from a null one |
| Exec.ObligationIds | crates/ke-runtime/src/exec.rs:59-64 | the ids, sorted, once each |
| Exec.EvaluateDependsOnCatalog | crates/ke-runtime/src/scenario.rs:174-205 | facts agreeing on the catalog give the same outcome and trace |
| Exec.TakeableFieldwise | crates/ke-runtime/src/compare.rs:19-31 | some facts answer a list of conditions as wanted if and only if each field has one fact that answers the conditions on it |
| Thresholds.ThresholdsAnswerableExactly | crates/ke-runtime/src/compare.rs:34-84 | one fact answers several numeric comparisons on a field as wanted if and only if none of the answers needs a number or one of finitely many computed numbers gives them all |
| Scenario.DrivesIffDrivable | crates/ke-runtime/src/scenario.rs:140-168 | the generated value gives the wanted verdict if and only if the condition is drivable |
| Scenario.BuildFacts | crates/ke-runtime/src/scenario.rs:271-286 | layers write over each other in order, absent facts removed |
| Scenario.ApplicabilityPairs | crates/ke-runtime/src/scenario.rs:211-240 | the pairs pushed: every check the wanted way, except that to fail `all` only the first check is pushed |
| Scenario.WalkPaths | crates/ke-runtime/src/scenario.rs:244-267 | one row of facts per row of the path table, in its order |
| Scenario.PathScenarioReachesItsLeaf | crates/ke-runtime/src/scenario.rs:293-306 | with distinct fields and drivable conditions the i-th path scenario is applicable, takes exactly the i-th path and ends at its leaf |
| Scenario.NotApplicableScenario | crates/ke-runtime/src/scenario.rs:308-318 | the not-applicable facts do make the rule inapplicable |
| Scenario.GenerateForRule | crates/ke-runtime/src/scenario.rs:293-394 | the exact list in order, labels and facts: path scenarios, not-applicable, three boundaries for each ordering condition, missing and wrongly typed field, irrelevant facts, fuzz from the given draws |
| Suites.PathEntries | crates/ke-runtime/src/scenario.rs:293-306 | the list opens with as many entries as the tree has leaves, numbered; each, where its row can be aimed at, is decided by that row's leaf along that row's path |
| Suites.NotApplicableEntry | crates/ke-runtime/src/scenario.rs:308-315 | the next entry of a rule with a group is the not-applicable one, and the rule does not apply to it where its checks can be failed |
| Suites.AnchorHolds | crates/ke-runtime/src/scenario.rs:317-324 | the facts the variations start from satisfy every condition of the rule, and it applies, when fields are asked one satisfiable condition each |
| Suites.BoundaryEntries | crates/ke-runtime/src/scenario.rs:325-340 | each ordering condition has three entries next to each other, labelled below, at and above, that differ from the anchor in its field only, hold its operand less, plus nothing and plus one unit, and answer it accordingly |
| Suites.MissingAndWrongEntries | crates/ke-runtime/src/scenario.rs:342-359 | then the first condition's field missing, then of another kind, all else as in the anchor |
| Suites.IrrelevantEntry | crates/ke-runtime/src/scenario.rs:361-375 | then the entry with two facts the rule does not ask about, which has the outcome and trace of the anchor |
| Suites.FuzzEntries | crates/ke-runtime/src/scenario.rs:377-416 | the n-th fuzz entry draws once for each condition, going on where the last stopped; each field has what its last condition drew: satisfying, failing, missing, or of another kind |
| Scenario.BoundaryVerdicts | crates/ke-runtime/src/scenario.rs:325-340 | at a threshold minus one, itself and plus one unit in the last place, the varied condition answers as its operator says; operands that are not numbers do not move |
| Scenario.BoundariesListed | crates/ke-runtime/src/scenario.rs:325-340 | the three boundary scenarios of every ordering condition are in the list, next to each other |
| Scenario.IrrelevantFactsChangeNothing | crates/ke-runtime/src/scenario.rs:361-375 | noise on fields the rule never mentions changes neither outcome nor trace |
| Conflicts.ExtractPremises | crates/ke-compiler/src/verify/t4.rs:78-106 | the fields constrained by top-level equality and membership, each with every value some such condition allows |
| Classes.PremisesExactly | crates/ke-compiler/src/verify/t4.rs:78-106 | a field is constrained if and only if a condition standing by itself in the rule's `all` equates it or puts it in a list, and to the texts of those operands and members |
| Conflicts.ScopesOverlap | crates/ke-compiler/src/verify/t4.rs:108-119 | true if and only if a field is shared and no shared field is disjoint |
| Conflicts.MeetsExactly | crates/ke-runtime/src/compare.rs:34-96 | one fact meets two premise conditions if and only if the operands say so: equal numbers or texts item by item for equalities, a common printed text for memberships, and for a mix a member among the texts an equal fact can print as |
| Conflicts.UnmetPremisesNeverCoApply | crates/ke-compiler/src/verify/t4.rs:78-119 | two rules with premises on one field that do not meet are never applicable to the same facts, nested groups and coerced facts included |
| Conflicts.TextPremisesMeetExactly | crates/ke-compiler/src/verify/t4.rs:121-131 | on text operands two premises meet if and only if their value sets are not disjoint |
| Conflicts.DisjointScopesNeverCoApply | crates/ke-compiler/src/verify/t4.rs:108-119 | disjoint premises on a shared field whose own operands are text: no facts make both rules applicable |
| Conflicts.PremiseRulesCoApplyExactly | crates/ke-compiler/src/verify/t4.rs:78-119 | rules scoped by premises only, one to a field, are applicable together to some facts if and only if every premise can be met and every two on one field meet |
| Conflicts.SingleChecksCoApplyExactly | crates/ke-compiler/src/verify/t4.rs:108-119 | for two single-premise rules on one field some facts make both applicable if and only if the premises meet |
| Conflicts.TextScopesOverlapExactly | crates/ke-compiler/src/verify/t4.rs:108-119 | for such rules on text operands, none an empty list, scopes overlap if and only if they share a field and some facts make both rules applicable |
| Conflicts.NumericPremisesCanMislead | crates/ke-compiler/src/verify/t4.rs:121-131 | beyond text disjointness misleads: `1` and `1.0` print apart but one fact equals both |
| Conflicts.BooleanPremisesCanMislead | crates/ke-compiler/src/verify/t4.rs:121-131 | and `in [true]` and `in ["True"]` are disjoint for T4 but the fact true meets both |
| Contradictions.PathsConsistent | crates/ke-compiler/src/verify/t4.rs:179-192 | the map loop decides consistency of a pair of paths |
| Contradictions.PossibleTogether | crates/ke-compiler/src/verify/t4.rs:175-192 | no condition is answered both ways along two paths together if and only if neither path does so itself and they are consistent |
| Contradictions.TakenPathsAreConsistent | crates/ke-compiler/src/verify/t4.rs:175-192 | consistency is necessary: paths some facts take together are possible and consistent, whatever they ask |
| Contradictions.ConsistentPathsMayNeverMeet | crates/ke-compiler/src/verify/t4.rs:175-192 | it is not sufficient: `x > 5` and `x < 3` contradict for T4 and no facts take both |
| Contradictions.BothTakenFieldwise | crates/ke-compiler/src/verify/t4.rs:175-192 | for all paths: facts take both if and only if each field has one fact that answers both as wanted there |
| Contradictions.BothTakenExactly | crates/ke-compiler/src/verify/t4.rs:175-192 | when different conditions lie on different fields and can be driven, facts take both paths if and only if they are possible and consistent |
| Contradictions.ConsistencySufficesExactly | crates/ke-compiler/src/verify/t4.rs:175-192 | when each field is asked numeric comparisons only or one condition that can be driven, facts take both paths if and only if they are possible and consistent and the comparisons on each field leave a number, or need none |
| Contradictions.ContradictionReachedExactly | crates/ke-compiler/src/verify/t4.rs:134-173 | for a contradicting pair of rows: some facts make both rules applicable and carry the executor along those rows to different results if and only if, for some choice of one check of each `any` group and all checks of each `all` group, checks and rows together are possible and consistent and leave numbers |
| Contradictions.ContradictsSymmetric | crates/ke-compiler/src/verify/t4.rs:162-192 | swapping a contradicting pair keeps it if and only if the first path answers each condition the second also asks in one way only |
| Contradictions.ImpossiblePathsAreNot | crates/ke-compiler/src/verify/t4.rs:179-192 | a path that asks one condition twice with different answers contradicts one way round |
| Contradictions.FindContradiction | crates/ke-compiler/src/verify/t4.rs:162-173 | finds a contradicting pair if and only if there is one |
| Contradictions.DetectConflicts | crates/ke-compiler/src/verify/t4.rs:19-68 | the report in order, pair by pair; what it holds of each pair is `Classes.PairReportedExactly` |
| Contradictions.ReportedOnce | crates/ke-compiler/src/verify/t4.rs:19-68 | it holds each class of each unordered pair exactly once and nothing else |
| Classes.ContradictsExactly | crates/ke-compiler/src/verify/t4.rs:162-215 | two paths contradict if and only if their results differ, the first last answers no condition of the second otherwise, and they share a field or ask nothing |
| Classes.PairReportedExactly | crates/ke-compiler/src/verify/t4.rs:19-68 | of each two rules the report has a duplicate if and only if applicability and paths are equal; otherwise, if and only if their scopes meet, a contradiction when some paths contradict and an overlap when none do, and a temporal overlap when their windows also do; never a pair the other way round or a rule with itself |
| Classes.ReportInOrder | crates/ke-compiler/src/verify/t4.rs:19-68 | the report goes by the earlier rule, then the later, the scope class of a pair before its windows |
| Graphs.Graph.Merge | crates/ke-cli/src/graph/mod.rs:79-94 | nodes dedupe by label and id, edges exactly; nothing already present moves or changes |
| Graphs.ExtractGraph | crates/ke-cli/src/graph/mod.rs:169-307 | the projection's edges in order, and by label and id exactly its nodes, each carrying what belongs to it; `Oracles.ProjectionEdgesExactly` says which edges those are |
| Oracles.ProjectionEdgesExactly | crates/ke-cli/src/graph/mod.rs:169-307 | an edge is in a projection if and only if it puts the artifact in its regime, hangs an attestation on it, hangs a rule or the intent on it, or runs from a rule to the document its source names, or from a rule or the intent to a document a span names, with article and section |
| Graphs.MergeExports | crates/ke-cli/src/commands/graph_export.rs:51-75 | the merge loop: exactly the exported artifacts' edges and nodes, each once |
| Graphs.BlastRadius | crates/ke-cli/src/graph/mod.rs:404-435 | sorted; exactly what cites the document, holds such a rule, or attests such an artifact |
| Oracles.BlastExactly | crates/ke-cli/src/graph/mod.rs:404-435 | in a graph merged from exports, a document or one article of it affects an id if and only if it is a rule or intent that cites or spans it there, an artifact that holds one, or an attestation of such an artifact |
| Graphs.Closure | crates/ke-cli/src/graph/mod.rs:464-494 | the search ends with exactly the undirected citation closure of its sources |
| Oracles.ReachableExactly | crates/ke-cli/src/graph/mod.rs:441-494 | in such a graph the closure is what chains of the artifacts' own citations, followed either way, connect to the sources |
| Graphs.ConflictExposure | crates/ke-cli/src/graph/mod.rs:441-512 | strictly sorted; exactly the target-regime rules one conflict edge from the closure of the source regime's rules |
| Oracles.ExposureExactly | crates/ke-cli/src/graph/mod.rs:441-512 | in such a graph an id is exposed if and only if an artifact of the target regime has it in conflict with an id that chains of citations connect to the rules of the source regime's artifacts |
| Graphs.ConflictPartnersShareRegime | crates/ke-cli/src/graph/mod.rs:315-335 | in a merged graph both ends of a conflict edge lie in one artifact and regime |
| Graphs.ExposureNeedsReachedPartner | crates/ke-cli/src/graph/mod.rs:441-512 | every exposed rule has a partner in its own artifact, in the target regime, that the source's citations reach |
| ConflictGraphs.RecomputeConflicts | crates/ke-cli/src/graph/mod.rs:315-335 | the loop gives the edges of exactly what T4 reports over the rules, in report order |
| ConflictGraphs.ConflictEdgesExactly | crates/ke-cli/src/graph/mod.rs:315-335 | there is a conflict edge for each class T4 gives each pair of an artifact's rules, its ends sorted, and no other |
| Classes.EdgesSayExactly | crates/ke-cli/src/graph/mod.rs:315-335 | an edge is a conflict edge of an artifact if and only if it joins two of its rules, from the id that sorts first, and names a class that holds of them, with that class's severity |
| ConflictGraphs.RecomputedIsValid | crates/ke-cli/src/graph/mod.rs:315-335 | the conflicts recomputed over an artifact's rules name its own rules only |
| ConflictGraphs.ExposedRulesConflict | crates/ke-cli/src/graph/mod.rs:441-512 | every exposed rule is one T4 reports against another rule of its own artifact and regime that the source's citations reach |

## Left out

- Rules, intent specs, span indexes and in-envelope consistency blocks are opaque length-prefixed byte strings: their own layout, `build_span_index` and the canonical profile of a rule are not modelled.
- UTF-8 validation and Unicode normalisation: strings on the wire are bytes, and normal form is a predicate parameter.
- Real BLAKE3, Ed25519 and RFC 3161 tokens, and the fixed seeds themselves.
- Floats: `f64` comparisons are over exact rationals and float printing is a parameter, so rounding is not modelled.
- Scenario.DrivesIffDrivable: restricted to `Ordinary` operands, whose shifted mantissa stays in 128 bits; the source's overflow there panics or wraps.
- The pseudo-random generator behind the fuzz scenarios: its draws are a parameter.
- Semantic normal forms: the conditions of `Contradictions` have their operands in normal form already, the order the paths are sorted into is not modelled, and a rule's applicability form is an opaque string.
- Contradictions.ConsistencySufficesExactly: covers fields asked numeric comparisons only, or one condition that can be driven; for any other mix `Contradictions.BothTakenFieldwise` leaves one question about one fact per field.
- Contradictions.ContradictionReachedExactly: for rules whose demands, under every choice of checks, are of the kind `Contradictions.ConsistencySufficesExactly` covers.
- Graph rendering (JSON, Cypher) and which properties a node keeps when two artifacts give it different ones.
- Backend.LocalFsBackend.AppendEvent: does not model the file-name order of two events with one sequence number, which no reachable log has.
- A sequence number overflowing 32 bits is an error of the command here; the source's addition panics or wraps by build profile.
- Review views written beside an artifact, file paths, directory creation and other I/O failures.
- The provenance export, a projection of fields with no rule of its own, and its JSON form.
- Command-line parsing, YAML and JSON authoring input, lint tiers T0, T1 and T5, the HTTP server, SQL, bindings and the web front end.
- The compiler's verification report is one flag on the compile command: whether a finding blocks.
