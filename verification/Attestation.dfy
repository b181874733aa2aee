/**
 Signed expert attestations: the signed prefix, the per-attestation rejection rules R1-R5 and R8 in contract
 order, and the set rules R6 and R7.
 */
module Attestations {
  import opened Wrappers
  import opened Wire
  import opened Crypto
  import opened Calendar
  import opened Records

  // ---- keys and context ----

  datatype KeyStatus = Active | Expired | Withdrawn

  datatype KeyEntry = KeyEntry(
    keyId: Text, publicKey: Hash, roles: seq<SignerRole>, types: seq<AttestationType>, validFrom: u64, validTo: u64,
    status: KeyStatus)

  /** The first entry of that id. */
  function Lookup(directory: seq<KeyEntry>, keyId: Text): (r: Option<KeyEntry>)
    ensures r.Some? ==> r.value in directory && r.value.keyId == keyId
    ensures r.None? ==> forall e :: e in directory ==> e.keyId != keyId
  {
    if directory == [] then None
    else if directory[0].keyId == keyId then Some(directory[0])
    else Lookup(directory[1..], keyId)
  }

  datatype Context = Context(environment: Text, now: u64, supportedVersions: seq<Text>, legalSource: Option<Hash>)

  const LOCAL: Text := Ascii("local")

  /** What attestations are checked against. */
  datatype Checker = Checker(
    suite: Suite, tsaPublicKey: Hash, artifactHash: Hash, manifest: Manifest, directory: seq<KeyEntry>, context: Context)

  datatype Rejection =
    | KeyUnknown
    | KeyExpired
    | KeyRevoked
    | KeyUnauthorizedForType(claim: AttestationType)
    | NotBoundToArtifact(expected: Hash, got: Hash)
    | PolicyVersionUnsupported
    | AttestationExpired
    | LegalSourceHashChanged
    | RequiredTypeMissing(claim: AttestationType, required: nat, found: nat)
    | CoAttestationAbsent(claim: AttestationType)
    | MockTsaNonLocal
    | AttestationSignatureInvalid
    | TimestampClassMismatch
    | TsaUnsupported(class_: TsaClass)

  // ---- the signed prefix ----

  /** Every field but the signature. */
  function PayloadPrefix(a: Attestation): bytes {
    EncAll(AttestationPayloadVals(a))
  }

  /** How the code finds it: encode everything, read the payload back, cut where that read stopped. */
  method RecoverPrefix(a: Attestation) returns (prefix: bytes)
    ensures prefix == PayloadPrefix(a) && Enc(AttestationVal(a)) == prefix + a.signature
  {
    prefix := Enc(AttestationVal(a));
    PrefixRecovered(ATTESTATION_PAYLOAD, AttestationPayloadVals(a), [VRaw(a.signature)]);
    EncAllConcat(AttestationPayloadVals(a), [VRaw(a.signature)]);
    assert EncAll([VRaw(a.signature)]) == a.signature + [];
    var read := Dec(SStruct(ATTESTATION_PAYLOAD), prefix);
    prefix := prefix[..|prefix| - |read.rest|];
  }

  function SignAttestation(c: Suite, key: bytes, a: Attestation): Attestation {
    a.(signature := c.sign(key, PayloadPrefix(a)))
  }

  predicate SignatureHolds(c: Suite, publicKey: Hash, a: Attestation) {
    c.verify(publicKey, PayloadPrefix(a), a.signature)
  }

  /** Signing ignores any earlier signature, repeats exactly, and what it produced verifies. */
  lemma SigningVerifies(c: Suite, key: bytes, a: Attestation, earlier: Sig)
    requires Sound(c)
    ensures SignatureHolds(c, c.publicOf(key), SignAttestation(c, key, a))
    ensures SignAttestation(c, key, a.(signature := earlier)) == SignAttestation(c, key, a)
    ensures SignAttestation(c, key, SignAttestation(c, key, a)) == SignAttestation(c, key, a)
  {
    PrefixIgnoresSignature(a, earlier);
    PrefixIgnoresSignature(a, SignAttestation(c, key, a).signature);
  }

  lemma PrefixIgnoresSignature(a: Attestation, signature: Sig)
    ensures PayloadPrefix(a.(signature := signature)) == PayloadPrefix(a)
  {
    var b := a.(signature := signature);
    assert SignerVal(b) == SignerVal(a) && TermsVal(b) == TermsVal(a) && PolicyVal(b) == PolicyVal(a);
  }

  // ---- timestamps ----

  function LittleEndian(n: nat, size: nat): (b: bytes)
    ensures |b| == size
  {
    if size == 0 then [] else [n % 0x100] + LittleEndian(n / 0x100, size - 1)
  }

  /** Class byte, stamped hash, claimed time. */
  function MockMessage(hash: Hash, claimedTime: u64): bytes {
    [2] + hash + LittleEndian(claimedTime, 8)
  }

  function Stamp(c: Suite, tsaKey: bytes, hash: Hash, time: u64): TimestampToken {
    TimestampToken(Mock, c.sign(tsaKey, MockMessage(hash, time)), time)
  }

  predicate VerifiesAsMock(c: Suite, tsaPublicKey: Hash, t: TimestampToken, hash: Hash) {
    |t.token| == 64 && c.verify(tsaPublicKey, MockMessage(hash, t.claimedTime), t.token)
  }

  function DeriveClass(c: Suite, tsaPublicKey: Hash, t: TimestampToken, hash: Hash): Result<TsaClass, Rejection> {
    if VerifiesAsMock(c, tsaPublicKey, t, hash) then Ok(Mock)
    else if t.class_.Mock? then Err(TimestampClassMismatch)
    else Err(TsaUnsupported(t.class_))
  }

  // ---- one attestation ----

  /** The first rejection in contract order, or None. */
  function Check(k: Checker, a: Attestation): Option<Rejection> {
    match Lookup(k.directory, a.keyId)
    case None => Some(KeyUnknown)
    case Some(entry) =>
      var integrity := CheckIntegrity(k, entry, a);
      if integrity.Some? then integrity
      else
        var authority := CheckKey(k, entry, a);
        if authority.Some? then authority else CheckBinding(k, a)
  }

  /** The signature, the re-derived timestamp class, R8. */
  function CheckIntegrity(k: Checker, entry: KeyEntry, a: Attestation): Option<Rejection> {
    if !SignatureHolds(k.suite, entry.publicKey, a) then Some(AttestationSignatureInvalid)
    else
      match DeriveClass(k.suite, k.tsaPublicKey, a.timestamp, a.artifactHash)
      case Err(rejection) => Some(rejection)
      case Ok(derived) =>
        if derived != a.timestamp.class_ then Some(TimestampClassMismatch)
        else if derived.Mock? && k.context.environment != LOCAL then Some(MockTsaNonLocal)
        else None
  }

  /** R1: status, half-open window, role and type. */
  function CheckKey(k: Checker, entry: KeyEntry, a: Attestation): Option<Rejection> {
    if entry.status.Expired? then Some(KeyExpired)
    else if entry.status.Withdrawn? then Some(KeyRevoked)
    else if k.context.now < entry.validFrom || k.context.now >= entry.validTo then Some(KeyExpired)
    else if a.signerRole !in entry.roles || a.claim !in entry.types then Some(KeyUnauthorizedForType(a.claim))
    else None
  }

  /** R2 to R5. */
  function CheckBinding(k: Checker, a: Attestation): Option<Rejection> {
    if !Bound(k, a) then Some(NotBoundToArtifact(k.artifactHash, a.artifactHash))
    else if a.policyVersion !in k.context.supportedVersions then Some(PolicyVersionUnsupported)
    else if a.irSchemaVersion != k.manifest.irSchemaVersion then Some(PolicyVersionUnsupported)
    else if a.expiration.Some? && Calendar.Expired(k.context.now, a.expiration.value) then Some(AttestationExpired)
    else if k.context.legalSource.Some? && k.context.legalSource.value != a.legalSourceHash then Some(LegalSourceHashChanged)
    else None
  }

  predicate Bound(k: Checker, a: Attestation) {
    a.artifactHash == k.artifactHash && a.regimeId == k.manifest.regimeId && a.compilerVersion == k.manifest.compilerVersion
  }

  predicate Valid(k: Checker, a: Attestation) {
    Check(k, a).None?
  }

  /** The per-attestation check, as a value the set rules are written over. */
  type AttestationCheck = Attestation -> Option<Rejection>

  function Checks(k: Checker): AttestationCheck {
    a => Check(k, a)
  }

  // ---- the set ----

  datatype Policy = Policy(required: seq<AttestationType>, minimums: seq<(AttestationType, nat)>)

  /** At least one, and at least the first configured minimum. */
  function Required(policy: Policy, t: AttestationType): (n: nat)
    ensures n >= 1
  {
    var m := FirstMinimum(policy.minimums, t);
    if m.Some? && m.value > 1 then m.value else 1
  }

  function FirstMinimum(minimums: seq<(AttestationType, nat)>, t: AttestationType): Option<nat> {
    if minimums == [] then None
    else if minimums[0].0 == t then Some(minimums[0].1)
    else FirstMinimum(minimums[1..], t)
  }

  /** What an approval needs beside it. */
  function CoTypes(kind: ArtifactKind): seq<AttestationType> {
    if kind.IntentSpec? then [SourceFidelity] else [ScenarioCoverage, SourceFidelity]
  }

  function Count(t: AttestationType, atts: seq<Attestation>): nat {
    if atts == [] then 0 else Count(t, atts[..|atts| - 1]) + if atts[|atts| - 1].claim == t then 1 else 0
  }

  predicate Carries(t: AttestationType, atts: seq<Attestation>) {
    exists a :: a in atts && a.claim == t
  }

  /** The set verifies: every member valid, every required type often enough, approvals co-attested. */
  predicate SetHolds(check: AttestationCheck, kind: ArtifactKind, policy: Policy, atts: seq<Attestation>) {
    (forall a :: a in atts ==> check(a).None?) &&
    (forall t :: t in policy.required ==> Count(t, atts) >= Required(policy, t)) &&
    (Carries(PublicationApproval, atts) ==> forall t :: t in CoTypes(kind) ==> Carries(t, atts))
  }

  // ---- the set's rejections, in report order ----

  function ValidOnes(check: AttestationCheck, atts: seq<Attestation>): seq<Attestation> {
    if atts == [] then []
    else
      var last := |atts| - 1;
      ValidOnes(check, atts[..last]) + if check(atts[last]).None? then [atts[last]] else []
  }

  function Individual(check: AttestationCheck, atts: seq<Attestation>): seq<Rejection> {
    if atts == [] then []
    else
      var last := |atts| - 1;
      Individual(check, atts[..last]) + match check(atts[last]) case None => [] case Some(rejection) => [rejection]
  }

  /** R6. */
  function Missing(policy: Policy, required: seq<AttestationType>, valid: seq<Attestation>): (r: seq<Rejection>)
    ensures r == [] <==> forall t :: t in required ==> Count(t, valid) >= Required(policy, t)
  {
    if required == [] then []
    else
      var last := |required| - 1;
      var t := required[last];
      Missing(policy, required[..last], valid) +
      if Count(t, valid) < Required(policy, t) then [RequiredTypeMissing(t, Required(policy, t), Count(t, valid))] else []
  }

  function FirstApproval(atts: seq<Attestation>): (r: Option<Attestation>)
    ensures r.Some? <==> Carries(PublicationApproval, atts)
    ensures r.Some? ==> r.value in atts
  {
    if atts == [] then None
    else if atts[0].claim.PublicationApproval? then Some(atts[0])
    else FirstApproval(atts[1..])
  }

  predicate CarriesOver(t: AttestationType, hash: Hash, atts: seq<Attestation>) {
    exists a :: a in atts && a.claim == t && a.artifactHash == hash
  }

  function Uncovered(types: seq<AttestationType>, hash: Hash, valid: seq<Attestation>): (r: seq<Rejection>)
    ensures r == [] <==> forall t :: t in types ==> CarriesOver(t, hash, valid)
  {
    if types == [] then []
    else
      var last := |types| - 1;
      Uncovered(types[..last], hash, valid) +
      if CarriesOver(types[last], hash, valid) then [] else [CoAttestationAbsent(types[last])]
  }

  /** R7: the first approval, and its co-attestations over the same hash. */
  function Absent(kind: ArtifactKind, valid: seq<Attestation>): seq<Rejection> {
    match FirstApproval(valid)
    case None => []
    case Some(approval) => Uncovered(CoTypes(kind), approval.artifactHash, valid)
  }

  function SetRejections(check: AttestationCheck, kind: ArtifactKind, policy: Policy, atts: seq<Attestation>): seq<Rejection> {
    var valid := ValidOnes(check, atts);
    Individual(check, atts) + Missing(policy, policy.required, valid) + Absent(kind, valid)
  }

  /** What R2 guarantees of a check: whatever passes it is over one hash. */
  ghost predicate BindsHash(check: AttestationCheck, hash: Hash) {
    forall a :: check(a).None? ==> a.artifactHash == hash
  }

  lemma CheckBindsHash(k: Checker)
    ensures BindsHash(Checks(k), k.artifactHash)
  {
    forall a | Checks(k)(a).None?
      ensures a.artifactHash == k.artifactHash
    {
      ValidIsBound(k, a);
    }
  }

  /** Nothing is reported exactly when the set holds: R2 makes every valid hash the same, so R7 needs no hash. */
  lemma NoRejectionsIffSetHolds(check: AttestationCheck, kind: ArtifactKind, policy: Policy, atts: seq<Attestation>, hash: Hash)
    requires BindsHash(check, hash)
    ensures SetRejections(check, kind, policy, atts) == [] <==> SetHolds(check, kind, policy, atts)
  {
    IndividualEmptyIff(check, atts);
    if forall a :: a in atts ==> check(a).None? {
      AllValid(check, atts);
      ApprovalNeedsNoHash(kind, atts, hash);
    }
  }

  lemma {:induction false} IndividualEmptyIff(check: AttestationCheck, atts: seq<Attestation>)
    ensures Individual(check, atts) == [] <==> forall a :: a in atts ==> check(a).None?
  {
    if atts != [] {
      var last := |atts| - 1;
      IndividualEmptyIff(check, atts[..last]);
      assert atts == atts[..last] + [atts[last]];
      if Individual(check, atts) == [] {
        assert check(atts[last]).None?;
      }
    }
  }

  lemma {:induction false} AllValid(check: AttestationCheck, atts: seq<Attestation>)
    requires forall a :: a in atts ==> check(a).None?
    ensures ValidOnes(check, atts) == atts
  {
    if atts != [] {
      var last := |atts| - 1;
      AllValid(check, atts[..last]);
      assert atts == atts[..last] + [atts[last]];
    }
  }

  lemma ApprovalNeedsNoHash(kind: ArtifactKind, valid: seq<Attestation>, hash: Hash)
    requires forall a :: a in valid ==> a.artifactHash == hash
    ensures Absent(kind, valid) == [] <==>
            (Carries(PublicationApproval, valid) ==> forall t :: t in CoTypes(kind) ==> Carries(t, valid))
  {
    if Carries(PublicationApproval, valid) {
      assert FirstApproval(valid).value.artifactHash == hash;
      forall t: AttestationType
        ensures CarriesOver(t, hash, valid) <==> Carries(t, valid)
      {
      }
    }
  }

  /** Every condition an accepted attestation meets, in no particular order. */
  lemma ValidExactly(k: Checker, a: Attestation)
    ensures Valid(k, a) <==>
            var entry := Lookup(k.directory, a.keyId);
            entry.Some? && SignatureHolds(k.suite, entry.value.publicKey, a) &&
            a.timestamp.class_.Mock? && VerifiesAsMock(k.suite, k.tsaPublicKey, a.timestamp, k.artifactHash) &&
            k.context.environment == LOCAL && entry.value.status.Active? &&
            entry.value.validFrom <= k.context.now < entry.value.validTo &&
            a.signerRole in entry.value.roles && a.claim in entry.value.types &&
            a.artifactHash == k.artifactHash && a.regimeId == k.manifest.regimeId &&
            a.compilerVersion == k.manifest.compilerVersion && a.irSchemaVersion == k.manifest.irSchemaVersion &&
            a.policyVersion in k.context.supportedVersions &&
            (a.expiration.Some? ==> !Calendar.Expired(k.context.now, a.expiration.value)) &&
            (k.context.legalSource.Some? ==> k.context.legalSource.value == a.legalSourceHash)
  {
  }

  /**
   Until an RFC 3161 authority is supported, only mock stamps verify, and those only locally: in any other
   environment a set is accepted exactly when it is empty and nothing is required of it.
   */
  lemma NothingVerifiesElsewhere(k: Checker, policy: Policy, atts: seq<Attestation>)
    requires k.context.environment != LOCAL
    ensures SetRejections(Checks(k), k.manifest.kind, policy, atts) == [] <==> atts == [] && policy.required == []
  {
    CheckBindsHash(k);
    NoRejectionsIffSetHolds(Checks(k), k.manifest.kind, policy, atts, k.artifactHash);
    if atts != [] {
      ValidExactly(k, atts[0]);
      assert atts[0] in atts && Checks(k)(atts[0]).Some?;
    } else if policy.required != [] {
      var t := policy.required[0];
      assert t in policy.required && Count(t, atts) == 0 && Required(policy, t) >= 1;
    }
  }

  lemma ValidIsBound(k: Checker, a: Attestation)
    requires Valid(k, a)
    ensures Bound(k, a)
  {
  }

  /** Set verification as the code does it, collecting every rejection. */
  method VerifySet(k: Checker, policy: Policy, atts: seq<Attestation>) returns (rejections: seq<Rejection>)
    ensures rejections == SetRejections(Checks(k), k.manifest.kind, policy, atts)
    ensures rejections == [] <==> SetHolds(Checks(k), k.manifest.kind, policy, atts)
  {
    rejections := [];
    var valid: seq<Attestation> := [];
    var check := Checks(k);
    for i := 0 to |atts|
      invariant valid == ValidOnes(check, atts[..i]) && rejections == Individual(check, atts[..i])
    {
      assert atts[..i + 1][..i] == atts[..i];
      match check(atts[i])
      case None => valid := valid + [atts[i]];
      case Some(rejection) => rejections := rejections + [rejection];
    }
    assert atts[..|atts|] == atts;
    var missing := MissingTypes(policy, valid);
    rejections := rejections + missing;
    var approval := FirstApproval(valid);
    if approval.Some? {
      var absent := AbsentCoTypes(CoTypes(k.manifest.kind), approval.value.artifactHash, valid);
      rejections := rejections + absent;
    }
    CheckBindsHash(k);
    NoRejectionsIffSetHolds(check, k.manifest.kind, policy, atts, k.artifactHash);
  }

  method MissingTypes(policy: Policy, valid: seq<Attestation>) returns (rejections: seq<Rejection>)
    ensures rejections == Missing(policy, policy.required, valid)
  {
    rejections := [];
    for i := 0 to |policy.required|
      invariant rejections == Missing(policy, policy.required[..i], valid)
    {
      assert policy.required[..i + 1][..i] == policy.required[..i];
      var t := policy.required[i];
      var found := CountOf(t, valid);
      var required := Required(policy, t);
      if found < required {
        rejections := rejections + [RequiredTypeMissing(t, required, found)];
      }
    }
    assert policy.required[..|policy.required|] == policy.required;
  }

  method CountOf(t: AttestationType, valid: seq<Attestation>) returns (found: nat)
    ensures found == Count(t, valid)
  {
    found := 0;
    for j := 0 to |valid|
      invariant found == Count(t, valid[..j])
    {
      assert valid[..j + 1][..j] == valid[..j];
      if valid[j].claim == t {
        found := found + 1;
      }
    }
    assert valid[..|valid|] == valid;
  }

  method AbsentCoTypes(types: seq<AttestationType>, hash: Hash, valid: seq<Attestation>) returns (rejections: seq<Rejection>)
    ensures rejections == Uncovered(types, hash, valid)
  {
    rejections := [];
    for j := 0 to |types|
      invariant rejections == Uncovered(types[..j], hash, valid)
    {
      assert types[..j + 1][..j] == types[..j];
      if !CarriesOver(types[j], hash, valid) {
        rejections := rejections + [CoAttestationAbsent(types[j])];
      }
    }
    assert types[..|types|] == types;
  }

  /** The verdict does not depend on the order the attestations are stored in. */
  lemma VerdictIgnoresOrder(k: Checker, policy: Policy, xs: seq<Attestation>, ys: seq<Attestation>)
    requires multiset(xs) == multiset(ys)
    ensures SetRejections(Checks(k), k.manifest.kind, policy, xs) == [] <==>
            SetRejections(Checks(k), k.manifest.kind, policy, ys) == []
  {
    forall a: Attestation
      ensures a in xs <==> a in ys
    {
      assert a in multiset(xs) <==> a in multiset(ys);
    }
    forall t: AttestationType
      ensures Count(t, xs) == Count(t, ys) && (Carries(t, xs) <==> Carries(t, ys))
    {
      CountIgnoresOrder(t, xs, ys);
    }
    CheckBindsHash(k);
    NoRejectionsIffSetHolds(Checks(k), k.manifest.kind, policy, xs, k.artifactHash);
    NoRejectionsIffSetHolds(Checks(k), k.manifest.kind, policy, ys, k.artifactHash);
  }

  lemma {:induction false} CountIgnoresOrder(t: AttestationType, xs: seq<Attestation>, ys: seq<Attestation>)
    requires multiset(xs) == multiset(ys)
    ensures Count(t, xs) == Count(t, ys)
  {
    assert |xs| == |multiset(xs)| == |multiset(ys)| == |ys|;
    if xs != [] {
      var last := xs[|xs| - 1];
      assert last in multiset(xs);
      assert last in ys;
      var j :| 0 <= j < |ys| && ys[j] == last;
      WithoutLast(xs, ys, j);
      CountIgnoresOrder(t, xs[..|xs| - 1], ys[..j] + ys[j + 1..]);
      CountWithout(t, ys, j);
    }
  }

  lemma WithoutLast(xs: seq<Attestation>, ys: seq<Attestation>, j: nat)
    requires xs != [] && j < |ys| && ys[j] == xs[|xs| - 1] && multiset(xs) == multiset(ys)
    ensures multiset(xs[..|xs| - 1]) == multiset(ys[..j] + ys[j + 1..])
  {
    assert xs == xs[..|xs| - 1] + [ys[j]];
    assert ys == ys[..j] + [ys[j]] + ys[j + 1..];
    assert multiset(xs[..|xs| - 1]) == multiset(xs) - multiset{ys[j]};
    assert multiset(ys[..j] + ys[j + 1..]) == multiset(ys) - multiset{ys[j]};
  }

  lemma CountWithout(t: AttestationType, ys: seq<Attestation>, j: nat)
    requires j < |ys|
    ensures Count(t, ys) == Count(t, ys[..j] + ys[j + 1..]) + if ys[j].claim == t then 1 else 0
  {
    assert ys == ys[..j] + [ys[j]] + ys[j + 1..];
    CountMiddle(t, ys[..j], ys[j], ys[j + 1..]);
  }

  lemma CountMiddle(t: AttestationType, before: seq<Attestation>, a: Attestation, after: seq<Attestation>)
    ensures Count(t, before + [a] + after) == Count(t, before + after) + if a.claim == t then 1 else 0
  {
    CountConcat(t, before + [a], after);
    CountConcat(t, before, after);
    assert (before + [a])[..|before + [a]| - 1] == before;
  }

  lemma {:induction false} CountConcat(t: AttestationType, xs: seq<Attestation>, ys: seq<Attestation>)
    ensures Count(t, xs + ys) == Count(t, xs) + Count(t, ys)
  {
    if ys == [] {
      assert xs + ys == xs;
    } else {
      CountConcat(t, xs, ys[..|ys| - 1]);
      assert (xs + ys)[..|xs + ys| - 1] == xs + ys[..|ys| - 1];
    }
  }
}
