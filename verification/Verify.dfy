/**
 The folded verifier: decoding, content address, compiler signature, attestation set, registry status and
 staleness, reported as the first failure.
 */
module Verification {
  import opened Wrappers
  import opened Wire
  import opened Crypto
  import opened Records
  import opened Attestations
  import Artifacts

  datatype RegistryStatus = Authoritative | Superseded | Withdrawn | Unknown

  /** Registry state as data: the status and head as of export, and the head a consumer has just fetched. */
  datatype Evidence = Evidence(status: RegistryStatus, eventHead: Hash, liveHead: Option<Hash>)

  datatype Reason =
    | DecodeFailed(error: Artifacts.Error)
    | HashMismatch
    | CompilerSignatureInvalid
    | AttestationsRejected(rejections: seq<Rejection>)
    | NotPublished(status: RegistryStatus)
    | StaleEventHead(embedded: Hash, live: Hash)

  datatype Trust = Trust(suite: Suite, profile: Artifacts.Profile, tsaPublicKey: Hash, directory: seq<KeyEntry>)

  function CheckerFor(t: Trust, context: Context, m: Manifest): Checker {
    Checker(t.suite, t.tsaPublicKey, m.hash, m, t.directory, context)
  }

  predicate CompilerKeyAccepts(t: Trust, prefix: bytes, signature: CompilerSignature) {
    var entry := Lookup(t.directory, signature.keyId);
    entry.Some? && Artifacts.SignatureHolds(t.suite, entry.value.publicKey, prefix, signature)
  }

  /** None is the verified verdict. */
  function Verify(t: Trust, context: Context, policy: Policy, kew: bytes, evidence: Evidence): Option<Reason> {
    match Artifacts.Decode(t.profile, kew)
    case Err(e) => Some(DecodeFailed(e))
    case Ok((a, envelopeLen)) => VerdictFor(t, context, policy, kew, a, envelopeLen, evidence)
  }

  function VerdictFor(t: Trust, context: Context, policy: Policy, kew: bytes, a: Artifact, envelopeLen: nat, evidence: Evidence)
    : Option<Reason>
    requires envelopeLen <= |kew|
  {
    if Artifacts.VerifyHash(t.suite, t.profile, kew).Err? then Some(HashMismatch)
    else if !CompilerKeyAccepts(t, kew[..envelopeLen], a.compilerSignature) then Some(CompilerSignatureInvalid)
    else
      var rejections := SetRejections(Checks(CheckerFor(t, context, a.manifest)), a.manifest.kind, policy, a.attestations);
      if rejections != [] then Some(AttestationsRejected(rejections))
      else if !evidence.status.Authoritative? then Some(NotPublished(evidence.status))
      else if evidence.liveHead.Some? && evidence.liveHead.value != evidence.eventHead then
        Some(StaleEventHead(evidence.eventHead, evidence.liveHead.value))
      else None
  }

  /** Exactly what the verified verdict promises a consumer. */
  lemma VerifiedExactly(t: Trust, context: Context, policy: Policy, kew: bytes, evidence: Evidence)
    ensures Verify(t, context, policy, kew, evidence).None? <==>
            Artifacts.VerifyHash(t.suite, t.profile, kew).Ok? &&
            var (a, len) := Artifacts.Decode(t.profile, kew).value;
            CompilerKeyAccepts(t, kew[..len], a.compilerSignature) &&
            SetHolds(Checks(CheckerFor(t, context, a.manifest)), a.manifest.kind, policy, a.attestations) &&
            evidence.status.Authoritative? && (evidence.liveHead.Some? ==> evidence.liveHead.value == evidence.eventHead)
  {
    match Artifacts.Decode(t.profile, kew)
    case Err(_) =>
    case Ok((a, _)) =>
      var k := CheckerFor(t, context, a.manifest);
      CheckBindsHash(k);
      NoRejectionsIffSetHolds(Checks(k), a.manifest.kind, policy, a.attestations, k.artifactHash);
  }

  /** Registry evidence never hides a cryptographic failure: a file that fails a check of its own is rejected for that. */
  lemma CryptoBeforeRegistry(t: Trust, context: Context, policy: Policy, kew: bytes, e: Evidence, f: Evidence)
    requires var r := Verify(t, context, policy, kew, e); r.Some? && !r.value.NotPublished? && !r.value.StaleEventHead?
    ensures Verify(t, context, policy, kew, f) == Verify(t, context, policy, kew, e)
  {
  }
}
