/**
 The artifact and event records and their wire form. Field order is the byte contract.

 Strings are their UTF-8 bytes. A rule, an intent spec, a span index and a consistency block are opaque
 length-prefixed blobs.
 */
module Records {
  import opened Wrappers
  import opened Wire
  import opened Crypto
  import opened Calendar

  type Text = b: bytes | |b| < LEN_LIMIT
  type u16 = x: int | 0 <= x < 0x1_0000
  type u32 = x: int | 0 <= x < 0x1_0000_0000
  type u64 = x: int | 0 <= x < 0x1_0000_0000_0000_0000
  type Texts = s: seq<Text> | |s| < LEN_LIMIT

  function Ascii(s: string): (b: Text)
    requires |s| < 64
    ensures |b| == |s| && forall i | 0 <= i < |s| :: b[i] == s[i] as int % 0x80
  {
    seq(|s|, i requires 0 <= i < |s| => s[i] as int % 0x80)
  }

  // ---- the records ----

  datatype ArtifactKind = RegimePack | EquivalenceMatrix | TestCorpus | PolicyBundle | IntentSpec

  datatype AttestationType = SourceFidelity | Interpretation | ScenarioCoverage | EquivalenceClaim | PublicationApproval

  datatype SignerRole = DomainExpert | PublicationApprover | Registry

  datatype LifecycleState = Draft | StructurallyVerified | MlChecked | ExpertAttested | Published | Deprecated | Revoked

  datatype SemVer = SemVer(major: u16, minor: u16, patch: u16)

  datatype Manifest = Manifest(
    kind: ArtifactKind, hash: Hash, regimeId: Text, effectiveFrom: Date, effectiveTo: Option<Date>,
    compilerVersion: SemVer, compilerBuildHash: Hash, irSchemaVersion: SemVer, codecVersion: Text,
    canonicalizationVersion: Text, corpusRootHash: Hash, sourceCorpusHash: Hash, attestationPolicyVersion: Text)

  datatype Payload = Rules(rules: Texts) | Intent(spec: Text)

  datatype AuditVersions = AuditVersions(jurisdictionResolver: Option<Text>, scenarioCorpus: Option<Text>)

  datatype CompilerSignature = CompilerSignature(keyId: Text, signature: Sig)

  datatype TsaClass = Rfc3161External(id: Text) | Rfc3161Internal(id: Text) | Mock

  datatype TimestampToken = TimestampToken(class_: TsaClass, token: Text, claimedTime: u64)

  datatype Scope = RuleIds(ids: Texts) | WholeArtifact

  datatype Attestation = Attestation(
    artifactHash: Hash, scope: Scope, claim: AttestationType, signerIdentity: Text, keyId: Text,
    signerRole: SignerRole, regimeId: Text, effectiveFrom: Date, effectiveTo: Option<Date>, legalSourceHash: Hash,
    irSchemaVersion: SemVer, compilerVersion: SemVer, policyVersion: Text, testCorpusHash: Option<Hash>,
    timestamp: TimestampToken, expiration: Option<Date>, reviewerComments: Option<Text>, signature: Sig)

  type Attestations = s: seq<Attestation> | |s| < LEN_LIMIT

  /** The registry metadata outside the envelope is the single value `Draft` and is not a field here. */
  datatype Artifact = Artifact(
    manifest: Manifest, payload: Payload, spanIndex: Text, audit: AuditVersions, consistency: Option<Text>,
    compilerSignature: CompilerSignature, attestations: Attestations)

  datatype Event = Event(
    artifactHash: Hash, seqNo: u32, priorState: Option<LifecycleState>, newState: LifecycleState, kind: Text,
    authorityKeyId: Text, authorityRole: SignerRole, timestamp: TimestampToken, prevHash: Option<Hash>, signature: Sig)

  // ---- field shapes ----

  const UNIT := SStruct([])
  const HASH := SRaw(32)
  const SIG := SRaw(64)
  const BYTE := SRaw(1)
  const KIND := SSum([UNIT, UNIT, UNIT, UNIT, UNIT])
  const CLAIM := SSum([UNIT, UNIT, UNIT, UNIT, UNIT])
  const ROLE := SSum([UNIT, UNIT, UNIT])
  const STATE := SSum([UNIT, UNIT, UNIT, UNIT, UNIT, UNIT, UNIT])
  const DATE_FIELDS := [U16, BYTE, BYTE]
  const DATE := SStruct(DATE_FIELDS)
  const SEMVER_FIELDS := [U16, U16, U16]
  const SEMVER := SStruct(SEMVER_FIELDS)
  const TSA_CLASSES := [SBlob, SBlob, UNIT]
  const TSA_CLASS := SSum(TSA_CLASSES)
  const TOKEN_FIELDS := [TSA_CLASS, SBlob, U64]
  const TOKEN := SStruct(TOKEN_FIELDS)
  const SCOPES := [SList(SBlob), UNIT]
  const SCOPE := SSum(SCOPES)
  // A nested struct adds no bytes, so long records are written in groups of a few fields.
  const MANIFEST_TERMS := [SBlob, DATE, SOpt(DATE), SEMVER, HASH]
  const MANIFEST_VERSIONS := [SEMVER, SBlob, SBlob, HASH, HASH, SBlob]
  const MANIFEST := [KIND, HASH, SStruct(MANIFEST_TERMS), SStruct(MANIFEST_VERSIONS)]
  const PAYLOADS := [SList(SBlob), SBlob]
  const PAYLOAD := SSum(PAYLOADS)
  const AUDIT_FIELDS := [SOpt(SBlob), SOpt(SBlob)]
  const COMPILER_SIGNATURE := [SBlob, SIG]
  const ENVELOPE := [SStruct(MANIFEST), PAYLOAD, SBlob, SStruct(AUDIT_FIELDS), SOpt(SBlob)]
  const ATT_SIGNER := [HASH, SCOPE, CLAIM, SBlob, SBlob, ROLE]
  const ATT_TERMS := [SBlob, DATE, SOpt(DATE), HASH, SEMVER, SEMVER]
  const ATT_POLICY := [SBlob, SOpt(HASH), TOKEN, SOpt(DATE), SOpt(SBlob)]
  const ATTESTATION_PAYLOAD := [SStruct(ATT_SIGNER), SStruct(ATT_TERMS), SStruct(ATT_POLICY)]
  const ATTESTATION := SStruct(ATTESTATION_PAYLOAD + [SIG])
  const EVENT_STEP := [HASH, U32, SOpt(STATE), STATE, SBlob]
  const EVENT_ORIGIN := [SBlob, ROLE, TOKEN, SOpt(HASH)]
  const EVENT_PAYLOAD := [SStruct(EVENT_STEP), SStruct(EVENT_ORIGIN)]
  const METADATA := SSum([UNIT])

  lemma IntLimits()
    ensures Limit(3, 3) == 0x1_0000 && Limit(5, 15) == 0x1_0000_0000 && Limit(10, 1) == LEN_LIMIT
  {
    LenLimit();
    TagLimit();
  }

  // ---- small fields ----

  const DONE := VStruct([])

  function KindTag(k: ArtifactKind): byte {
    match k case RegimePack => 0 case EquivalenceMatrix => 1 case TestCorpus => 2 case PolicyBundle => 3 case IntentSpec => 4
  }

  function KindAt(tag: nat): ArtifactKind {
    if tag == 0 then RegimePack else if tag == 1 then EquivalenceMatrix else if tag == 2 then TestCorpus
    else if tag == 3 then PolicyBundle else IntentSpec
  }

  function ClaimTag(t: AttestationType): byte {
    match t
    case SourceFidelity => 0 case Interpretation => 1 case ScenarioCoverage => 2 case EquivalenceClaim => 3
    case PublicationApproval => 4
  }

  function ClaimAt(tag: nat): AttestationType {
    if tag == 0 then SourceFidelity else if tag == 1 then Interpretation else if tag == 2 then ScenarioCoverage
    else if tag == 3 then EquivalenceClaim else PublicationApproval
  }

  function RoleTag(r: SignerRole): byte {
    match r case DomainExpert => 0 case PublicationApprover => 1 case Registry => 2
  }

  function RoleAt(tag: nat): SignerRole {
    if tag == 0 then DomainExpert else if tag == 1 then PublicationApprover else Registry
  }

  function StateTag(s: LifecycleState): byte {
    match s
    case Draft => 0 case StructurallyVerified => 1 case MlChecked => 2 case ExpertAttested => 3 case Published => 4
    case Deprecated => 5 case Revoked => 6
  }

  function KindVal(k: ArtifactKind): (v: Val)
    ensures Fits(KIND, v)
  {
    VTag(KindTag(k), DONE)
  }

  function KindOf(v: Val): ArtifactKind
    requires Fits(KIND, v)
  {
    KindAt(v.tag)
  }

  function ClaimVal(t: AttestationType): (v: Val)
    ensures Fits(CLAIM, v)
  {
    VTag(ClaimTag(t), DONE)
  }

  function ClaimOf(v: Val): AttestationType
    requires Fits(CLAIM, v)
  {
    ClaimAt(v.tag)
  }

  function RoleOf(v: Val): SignerRole
    requires Fits(ROLE, v)
  {
    RoleAt(v.tag)
  }

  function RoleVal(r: SignerRole): (v: Val)
    ensures Fits(ROLE, v)
  {
    VTag(RoleTag(r), DONE)
  }

  function StateVal(s: LifecycleState): (v: Val)
    ensures Fits(STATE, v)
  {
    VTag(StateTag(s), DONE)
  }

  function OptStateVal(s: Option<LifecycleState>): (v: Val)
    ensures Fits(SOpt(STATE), v)
  {
    if s.Some? then VSome(StateVal(s.value)) else VNone
  }

  function TextField(f: seq<Shape>, v: Val, i: nat): Text
    requires Fits(SStruct(f), v) && i < |f| && f[i] == SBlob
  {
    At(f, v, i).blob
  }

  function HashField(f: seq<Shape>, v: Val, i: nat): Hash
    requires Fits(SStruct(f), v) && i < |f| && f[i] == HASH
  {
    At(f, v, i).raw
  }

  /** Signed integers travel zig-zag. */
  function ZigZag(n: i16): u16 {
    if n >= 0 then 2 * n else -2 * n - 1
  }

  function UnZigZag(z: u16): i16 {
    if z % 2 == 0 then z / 2 else -((z + 1) / 2)
  }

  function DateVal(d: Date): (v: Val)
    ensures Fits(DATE, v)
  {
    IntLimits();
    VStruct([VInt(ZigZag(d.year)), VRaw([d.month]), VRaw([d.day])])
  }

  function DateOf(v: Val): Date
    requires Fits(DATE, v)
  {
    IntLimits();
    var f := DATE_FIELDS;
    Date(UnZigZag(At(f, v, 0).n), At(f, v, 1).raw[0], At(f, v, 2).raw[0])
  }

  function OptDateVal(d: Option<Date>): (v: Val)
    ensures Fits(SOpt(DATE), v)
  {
    if d.Some? then VSome(DateVal(d.value)) else VNone
  }

  function OptDateOf(v: Val): Option<Date>
    requires Fits(SOpt(DATE), v)
  {
    if v.VSome? then Some(DateOf(Inner(DATE, v))) else None
  }

  function SemVerVal(s: SemVer): (v: Val)
    ensures Fits(SEMVER, v)
  {
    IntLimits();
    VStruct([VInt(s.major), VInt(s.minor), VInt(s.patch)])
  }

  function SemVerOf(v: Val): SemVer
    requires Fits(SEMVER, v)
  {
    IntLimits();
    var f := SEMVER_FIELDS;
    SemVer(At(f, v, 0).n, At(f, v, 1).n, At(f, v, 2).n)
  }

  function OptTextVal(t: Option<Text>): (v: Val)
    ensures Fits(SOpt(SBlob), v)
  {
    if t.Some? then VSome(VBlob(t.value)) else VNone
  }

  function OptTextOf(v: Val): Option<Text>
    requires Fits(SOpt(SBlob), v)
  {
    if v.VSome? then Some(Inner(SBlob, v).blob) else None
  }

  function OptHashVal(h: Option<Hash>): (v: Val)
    ensures Fits(SOpt(HASH), v)
  {
    if h.Some? then VSome(VRaw(h.value)) else VNone
  }

  function OptHashOf(v: Val): Option<Hash>
    requires Fits(SOpt(HASH), v)
  {
    if v.VSome? then Some(Inner(HASH, v).raw) else None
  }

  function TextsVal(ts: Texts): (v: Val)
    ensures Fits(SList(SBlob), v)
  {
    VList(seq(|ts|, i requires 0 <= i < |ts| => VBlob(ts[i])))
  }

  function TextsOf(v: Val): Texts
    requires Fits(SList(SBlob), v)
  {
    seq(|v.items|, i requires 0 <= i < |v.items| => TextAt(v, i))
  }

  function TextAt(v: Val, i: nat): Text
    requires Fits(SList(SBlob), v) && i < |v.items|
  {
    Element(SBlob, v, i).blob
  }

  function TsaClassVal(c: TsaClass): (v: Val)
    ensures Fits(TSA_CLASS, v)
  {
    match c
    case Rfc3161External(id) => VTag(0, VBlob(id))
    case Rfc3161Internal(id) => VTag(1, VBlob(id))
    case Mock => VTag(2, DONE)
  }

  function TsaClassOf(v: Val): TsaClass
    requires Fits(TSA_CLASS, v)
  {
    if v.tag == 0 then Rfc3161External(Arm(TSA_CLASSES, v).blob)
    else if v.tag == 1 then Rfc3161Internal(Arm(TSA_CLASSES, v).blob)
    else Mock
  }

  function TokenVal(t: TimestampToken): (v: Val)
    ensures Fits(TOKEN, v)
  {
    IntLimits();
    VStruct([TsaClassVal(t.class_), VBlob(t.token), VInt(t.claimedTime)])
  }

  function TokenOf(v: Val): TimestampToken
    requires Fits(TOKEN, v)
  {
    IntLimits();
    var f := TOKEN_FIELDS;
    TimestampToken(TsaClassOf(At(f, v, 0)), At(f, v, 1).blob, At(f, v, 2).n)
  }

  function ScopeVal(s: Scope): (v: Val)
    ensures Fits(SCOPE, v)
  {
    if s.RuleIds? then VTag(0, TextsVal(s.ids)) else VTag(1, DONE)
  }

  function ScopeOf(v: Val): Scope
    requires Fits(SCOPE, v)
  {
    if v.tag == 0 then RuleIds(TextsOf(Arm(SCOPES, v))) else WholeArtifact
  }

  function PayloadVal(p: Payload): (v: Val)
    ensures Fits(PAYLOAD, v)
  {
    if p.Rules? then VTag(0, TextsVal(p.rules)) else VTag(1, VBlob(p.spec))
  }

  function PayloadOf(v: Val): Payload
    requires Fits(PAYLOAD, v)
  {
    if v.tag == 0 then Rules(TextsOf(Arm(PAYLOADS, v))) else Intent(Arm(PAYLOADS, v).blob)
  }

  // ---- the manifest and the envelope ----

  function ManifestTermsVal(m: Manifest): (v: Val)
    ensures Fits(SStruct(MANIFEST_TERMS), v)
  {
    VStruct([VBlob(m.regimeId), DateVal(m.effectiveFrom), OptDateVal(m.effectiveTo), SemVerVal(m.compilerVersion),
             VRaw(m.compilerBuildHash)])
  }

  function ManifestVersionsVal(m: Manifest): (v: Val)
    ensures Fits(SStruct(MANIFEST_VERSIONS), v)
  {
    VStruct([SemVerVal(m.irSchemaVersion), VBlob(m.codecVersion), VBlob(m.canonicalizationVersion),
             VRaw(m.corpusRootHash), VRaw(m.sourceCorpusHash), VBlob(m.attestationPolicyVersion)])
  }

  function ManifestVal(m: Manifest): (v: Val)
    ensures Fits(SStruct(MANIFEST), v)
  {
    VStruct([KindVal(m.kind), VRaw(m.hash), ManifestTermsVal(m), ManifestVersionsVal(m)])
  }

  function ManifestOf(v: Val): Manifest
    requires Fits(SStruct(MANIFEST), v)
  {
    ManifestFrom(KindOf(At(MANIFEST, v, 0)), HashField(MANIFEST, v, 1), At(MANIFEST, v, 2), At(MANIFEST, v, 3))
  }

  function ManifestFrom(kind: ArtifactKind, hash: Hash, t: Val, u: Val): Manifest
    requires Fits(SStruct(MANIFEST_TERMS), t) && Fits(SStruct(MANIFEST_VERSIONS), u)
  {
    var (f, g) := (MANIFEST_TERMS, MANIFEST_VERSIONS);
    Manifest(
      kind, hash, TextField(f, t, 0), DateOf(At(f, t, 1)), OptDateOf(At(f, t, 2)), SemVerOf(At(f, t, 3)),
      HashField(f, t, 4), SemVerOf(At(g, u, 0)), TextField(g, u, 1), TextField(g, u, 2), HashField(g, u, 3),
      HashField(g, u, 4), TextField(g, u, 5))
  }

  function AuditVal(a: AuditVersions): (v: Val)
    ensures Fits(SStruct(AUDIT_FIELDS), v)
  {
    VStruct([OptTextVal(a.jurisdictionResolver), OptTextVal(a.scenarioCorpus)])
  }

  function AuditOf(v: Val): AuditVersions
    requires Fits(SStruct(AUDIT_FIELDS), v)
  {
    var f := AUDIT_FIELDS;
    AuditVersions(OptTextOf(At(f, v, 0)), OptTextOf(At(f, v, 1)))
  }

  function CompilerSignatureVal(s: CompilerSignature): (v: Val)
    ensures Fits(SStruct(COMPILER_SIGNATURE), v)
  {
    VStruct([VBlob(s.keyId), VRaw(s.signature)])
  }

  function CompilerSignatureOf(v: Val): CompilerSignature
    requires Fits(SStruct(COMPILER_SIGNATURE), v)
  {
    var f := COMPILER_SIGNATURE;
    CompilerSignature(At(f, v, 0).blob, At(f, v, 1).raw)
  }

  // ---- attestations ----

  function SignerVal(a: Attestation): (v: Val)
    ensures Fits(SStruct(ATT_SIGNER), v)
  {
    VStruct([VRaw(a.artifactHash), ScopeVal(a.scope), ClaimVal(a.claim), VBlob(a.signerIdentity), VBlob(a.keyId),
             RoleVal(a.signerRole)])
  }

  function TermsVal(a: Attestation): (v: Val)
    ensures Fits(SStruct(ATT_TERMS), v)
  {
    VStruct([VBlob(a.regimeId), DateVal(a.effectiveFrom), OptDateVal(a.effectiveTo), VRaw(a.legalSourceHash),
             SemVerVal(a.irSchemaVersion), SemVerVal(a.compilerVersion)])
  }

  function PolicyVal(a: Attestation): (v: Val)
    ensures Fits(SStruct(ATT_POLICY), v)
  {
    VStruct([VBlob(a.policyVersion), OptHashVal(a.testCorpusHash), TokenVal(a.timestamp), OptDateVal(a.expiration),
             OptTextVal(a.reviewerComments)])
  }

  function AttestationPayloadVals(a: Attestation): (vs: seq<Val>)
    ensures FitsAll(ATTESTATION_PAYLOAD, vs)
  {
    [SignerVal(a), TermsVal(a), PolicyVal(a)]
  }

  function AttestationVal(a: Attestation): (v: Val)
    ensures Fits(ATTESTATION, v)
  {
    VStruct(AttestationPayloadVals(a) + [VRaw(a.signature)])
  }

  function AttestationOf(v: Val): Attestation
    requires Fits(ATTESTATION, v)
  {
    var f := ATTESTATION_PAYLOAD + [SIG];
    AttestationFrom(At(f, v, 0), At(f, v, 1), At(f, v, 2), At(f, v, 3).raw)
  }

  function AttestationFrom(s: Val, t: Val, p: Val, signature: Sig): Attestation
    requires Fits(SStruct(ATT_SIGNER), s) && Fits(SStruct(ATT_TERMS), t) && Fits(SStruct(ATT_POLICY), p)
  {
    var (f, g, h) := (ATT_SIGNER, ATT_TERMS, ATT_POLICY);
    Attestation(
      HashField(f, s, 0), ScopeOf(At(f, s, 1)), ClaimOf(At(f, s, 2)), TextField(f, s, 3), TextField(f, s, 4),
      RoleOf(At(f, s, 5)), TextField(g, t, 0), DateOf(At(g, t, 1)), OptDateOf(At(g, t, 2)), HashField(g, t, 3),
      SemVerOf(At(g, t, 4)), SemVerOf(At(g, t, 5)), TextField(h, p, 0), OptHashOf(At(h, p, 1)), TokenOf(At(h, p, 2)),
      OptDateOf(At(h, p, 3)), OptTextOf(At(h, p, 4)), signature)
  }

  function AttestationsVal(atts: Attestations): (v: Val)
    ensures Fits(SList(ATTESTATION), v)
  {
    VList(seq(|atts|, i requires 0 <= i < |atts| => AttestationVal(atts[i])))
  }

  function AttestationsOf(v: Val): Attestations
    requires Fits(SList(ATTESTATION), v)
  {
    seq(|v.items|, i requires 0 <= i < |v.items| => AttestationOf(Element(ATTESTATION, v, i)))
  }

  // ---- events ----

  function StepVal(e: Event): (v: Val)
    ensures Fits(SStruct(EVENT_STEP), v)
  {
    IntLimits();
    VStruct([VRaw(e.artifactHash), VInt(e.seqNo), OptStateVal(e.priorState), StateVal(e.newState), VBlob(e.kind)])
  }

  function OriginVal(e: Event): (v: Val)
    ensures Fits(SStruct(EVENT_ORIGIN), v)
  {
    VStruct([VBlob(e.authorityKeyId), RoleVal(e.authorityRole), TokenVal(e.timestamp), OptHashVal(e.prevHash)])
  }

  function EventPayloadVals(e: Event): (vs: seq<Val>)
    ensures FitsAll(EVENT_PAYLOAD, vs)
  {
    [StepVal(e), OriginVal(e)]
  }

  const EVENT := SStruct(EVENT_PAYLOAD + [SIG])

  function EventVal(e: Event): (v: Val)
    ensures Fits(EVENT, v)
  {
    VStruct(EventPayloadVals(e) + [VRaw(e.signature)])
  }

  // ---- what the wire form keeps ----

  lemma DateRoundTrip(d: Date)
    ensures DateOf(DateVal(d)) == d
  {
  }

  lemma OptDateRoundTrip(d: Option<Date>)
    ensures OptDateOf(OptDateVal(d)) == d
  {
  }

  lemma SemVerRoundTrip(s: SemVer)
    ensures SemVerOf(SemVerVal(s)) == s
  {
  }

  lemma TokenRoundTrip(t: TimestampToken)
    ensures TokenOf(TokenVal(t)) == t
  {
    assert TsaClassOf(TsaClassVal(t.class_)) == t.class_;
  }

  lemma TextsRoundTrip(ts: Texts)
    ensures TextsOf(TextsVal(ts)) == ts
  {
  }

  lemma ScopeRoundTrip(s: Scope)
    ensures ScopeOf(ScopeVal(s)) == s
  {
    if s.RuleIds? {
      TextsRoundTrip(s.ids);
    }
  }

  lemma PayloadRoundTrip(p: Payload)
    ensures PayloadOf(PayloadVal(p)) == p
  {
    if p.Rules? {
      TextsRoundTrip(p.rules);
    }
  }

  lemma ManifestRoundTrip(m: Manifest)
    ensures ManifestOf(ManifestVal(m)) == m
  {
    DateRoundTrip(m.effectiveFrom);
    OptDateRoundTrip(m.effectiveTo);
    SemVerRoundTrip(m.compilerVersion);
    SemVerRoundTrip(m.irSchemaVersion);
  }

  lemma AttestationRoundTrip(a: Attestation)
    ensures AttestationOf(AttestationVal(a)) == a
  {
    var f := ATTESTATION_PAYLOAD + [SIG];
    var v := AttestationVal(a);
    assert At(f, v, 0) == SignerVal(a) && At(f, v, 1) == TermsVal(a) && At(f, v, 2) == PolicyVal(a) && At(f, v, 3).raw == a.signature;
    AttestationGroups(a);
  }

  lemma AttestationGroups(a: Attestation)
    ensures AttestationFrom(SignerVal(a), TermsVal(a), PolicyVal(a), a.signature) == a
  {
    SignerFields(a);
    TermsFields(a);
    PolicyFields(a);
  }

  lemma SignerFields(a: Attestation)
    ensures var (f, v) := (ATT_SIGNER, SignerVal(a));
            HashField(f, v, 0) == a.artifactHash && ScopeOf(At(f, v, 1)) == a.scope && ClaimOf(At(f, v, 2)) == a.claim &&
            TextField(f, v, 3) == a.signerIdentity && TextField(f, v, 4) == a.keyId && RoleOf(At(f, v, 5)) == a.signerRole
  {
    ScopeRoundTrip(a.scope);
  }

  lemma TermsFields(a: Attestation)
    ensures var (f, v) := (ATT_TERMS, TermsVal(a));
            TextField(f, v, 0) == a.regimeId && DateOf(At(f, v, 1)) == a.effectiveFrom &&
            OptDateOf(At(f, v, 2)) == a.effectiveTo && HashField(f, v, 3) == a.legalSourceHash &&
            SemVerOf(At(f, v, 4)) == a.irSchemaVersion && SemVerOf(At(f, v, 5)) == a.compilerVersion
  {
    DateRoundTrip(a.effectiveFrom);
    OptDateRoundTrip(a.effectiveTo);
    SemVerRoundTrip(a.irSchemaVersion);
    SemVerRoundTrip(a.compilerVersion);
  }

  lemma PolicyFields(a: Attestation)
    ensures var (f, v) := (ATT_POLICY, PolicyVal(a));
            TextField(f, v, 0) == a.policyVersion && OptHashOf(At(f, v, 1)) == a.testCorpusHash &&
            TokenOf(At(f, v, 2)) == a.timestamp && OptDateOf(At(f, v, 3)) == a.expiration &&
            OptTextOf(At(f, v, 4)) == a.reviewerComments
  {
    TokenRoundTrip(a.timestamp);
    OptDateRoundTrip(a.expiration);
  }

  lemma AttestationsRoundTrip(atts: Attestations)
    ensures AttestationsOf(AttestationsVal(atts)) == atts
  {
    var v := AttestationsVal(atts);
    forall i | 0 <= i < |atts|
      ensures AttestationOf(Element(ATTESTATION, v, i)) == atts[i]
    {
      AttestationElement(atts, i);
    }
  }

  lemma AttestationElement(atts: Attestations, i: nat)
    requires i < |atts|
    ensures AttestationOf(Element(ATTESTATION, AttestationsVal(atts), i)) == atts[i]
  {
    AttestationRoundTrip(atts[i]);
  }

  // ---- what a read value keeps ----

  lemma DateWritesBack(v: Val)
    requires Fits(DATE, v)
    ensures DateVal(DateOf(v)) == v
  {
    IntLimits();
    var f := DATE_FIELDS;
    assert At(f, v, 0).VInt? && At(f, v, 1).VRaw? && At(f, v, 2).VRaw?;
    assert At(f, v, 1).raw == [At(f, v, 1).raw[0]] && At(f, v, 2).raw == [At(f, v, 2).raw[0]];
    assert v.vals == [At(f, v, 0), At(f, v, 1), At(f, v, 2)];
  }

  lemma OptDateWritesBack(v: Val)
    requires Fits(SOpt(DATE), v)
    ensures OptDateVal(OptDateOf(v)) == v
  {
    if v.VSome? {
      DateWritesBack(v.some);
    }
  }

  lemma SemVerWritesBack(v: Val)
    requires Fits(SEMVER, v)
    ensures SemVerVal(SemVerOf(v)) == v
  {
    IntLimits();
    var f := SEMVER_FIELDS;
    assert At(f, v, 0).VInt? && At(f, v, 1).VInt? && At(f, v, 2).VInt?;
    assert v.vals == [At(f, v, 0), At(f, v, 1), At(f, v, 2)];
  }

  lemma TextsWriteBack(v: Val)
    requires Fits(SList(SBlob), v)
    ensures TextsVal(TextsOf(v)) == v
  {
    forall i | 0 <= i < |v.items|
      ensures VBlob(TextsOf(v)[i]) == v.items[i]
    {
      assert Fits(SBlob, v.items[i]);
    }
    assert TextsVal(TextsOf(v)).items == v.items;
  }

  lemma KindWritesBack(v: Val)
    requires Fits(KIND, v)
    ensures KindVal(KindOf(v)) == v
  {
    UnitIsDone(v.arm);
  }

  lemma UnitIsDone(v: Val)
    requires Fits(UNIT, v)
    ensures v == DONE
  {
  }

  lemma PayloadWritesBack(v: Val)
    requires Fits(PAYLOAD, v)
    ensures PayloadVal(PayloadOf(v)) == v
  {
    if v.tag == 0 {
      TextsWriteBack(v.arm);
    }
  }

  lemma AuditWritesBack(v: Val)
    requires Fits(SStruct(AUDIT_FIELDS), v)
    ensures AuditVal(AuditOf(v)) == v
  {
    var f := AUDIT_FIELDS;
    OptTextWritesBack(At(f, v, 0));
    OptTextWritesBack(At(f, v, 1));
    assert v.vals == [At(f, v, 0), At(f, v, 1)];
  }

  lemma OptTextWritesBack(v: Val)
    requires Fits(SOpt(SBlob), v)
    ensures OptTextVal(OptTextOf(v)) == v
  {
  }

  lemma TermsWriteBack(m: Manifest, t: Val)
    requires Fits(SStruct(MANIFEST_TERMS), t)
    requires var f := MANIFEST_TERMS;
             m.regimeId == TextField(f, t, 0) && m.effectiveFrom == DateOf(At(f, t, 1)) &&
             m.effectiveTo == OptDateOf(At(f, t, 2)) && m.compilerVersion == SemVerOf(At(f, t, 3)) &&
             m.compilerBuildHash == HashField(f, t, 4)
    ensures ManifestTermsVal(m) == t
  {
    var f := MANIFEST_TERMS;
    DateWritesBack(At(f, t, 1));
    OptDateWritesBack(At(f, t, 2));
    SemVerWritesBack(At(f, t, 3));
    assert t.vals == [At(f, t, 0), At(f, t, 1), At(f, t, 2), At(f, t, 3), At(f, t, 4)];
  }

  lemma VersionsWriteBack(m: Manifest, u: Val)
    requires Fits(SStruct(MANIFEST_VERSIONS), u)
    requires var g := MANIFEST_VERSIONS;
             m.irSchemaVersion == SemVerOf(At(g, u, 0)) && m.codecVersion == TextField(g, u, 1) &&
             m.canonicalizationVersion == TextField(g, u, 2) && m.corpusRootHash == HashField(g, u, 3) &&
             m.sourceCorpusHash == HashField(g, u, 4) && m.attestationPolicyVersion == TextField(g, u, 5)
    ensures ManifestVersionsVal(m) == u
  {
    var g := MANIFEST_VERSIONS;
    SemVerWritesBack(At(g, u, 0));
    assert u.vals == [At(g, u, 0), At(g, u, 1), At(g, u, 2), At(g, u, 3), At(g, u, 4), At(g, u, 5)];
  }

  /** The manifest of a read value is written back to that value. */
  lemma ManifestWritesBack(v: Val)
    requires Fits(SStruct(MANIFEST), v)
    ensures ManifestVal(ManifestOf(v)) == v
  {
    var f := MANIFEST;
    ManifestGroups(v);
    KindWritesBack(At(f, v, 0));
    ManifestGroupsWriteBack(KindOf(At(f, v, 0)), HashField(f, v, 1), At(f, v, 2), At(f, v, 3));
  }

  lemma ManifestGroups(v: Val)
    requires Fits(SStruct(MANIFEST), v)
    ensures v == VStruct([At(MANIFEST, v, 0), VRaw(HashField(MANIFEST, v, 1)), At(MANIFEST, v, 2), At(MANIFEST, v, 3)])
  {
    assert v.vals == [At(MANIFEST, v, 0), At(MANIFEST, v, 1), At(MANIFEST, v, 2), At(MANIFEST, v, 3)];
  }

  lemma ManifestGroupsWriteBack(kind: ArtifactKind, hash: Hash, t: Val, u: Val)
    requires Fits(SStruct(MANIFEST_TERMS), t) && Fits(SStruct(MANIFEST_VERSIONS), u)
    ensures ManifestVal(ManifestFrom(kind, hash, t, u)) == VStruct([KindVal(kind), VRaw(hash), t, u])
  {
    TermsWriteBack(ManifestFrom(kind, hash, t, u), t);
    VersionsWriteBack(ManifestFrom(kind, hash, t, u), u);
  }

  /** Distinct events have distinct wire values. */
  lemma EventValInjective(d: Event, e: Event)
    requires EventVal(d) == EventVal(e)
    ensures d == e
  {
    var v, w := EventVal(d).vals, EventVal(e).vals;
    assert v[0] == w[0] && v[1] == w[1] && v[2] == w[2];
    StepInjective(d, e);
    OriginInjective(d, e);
  }

  lemma StepInjective(d: Event, e: Event)
    requires StepVal(d) == StepVal(e)
    ensures d.artifactHash == e.artifactHash && d.seqNo == e.seqNo && d.priorState == e.priorState
    ensures d.newState == e.newState && d.kind == e.kind
  {
    var v, w := StepVal(d).vals, StepVal(e).vals;
    assert v[0] == w[0] && v[1] == w[1] && v[2] == w[2] && v[3] == w[3] && v[4] == w[4];
  }

  lemma OriginInjective(d: Event, e: Event)
    requires OriginVal(d) == OriginVal(e)
    ensures d.authorityKeyId == e.authorityKeyId && d.authorityRole == e.authorityRole
    ensures d.timestamp == e.timestamp && d.prevHash == e.prevHash
  {
    var v, w := OriginVal(d).vals, OriginVal(e).vals;
    assert v[0] == w[0] && v[1] == w[1] && v[2] == w[2] && v[3] == w[3];
    TokenRoundTrip(d.timestamp);
    TokenRoundTrip(e.timestamp);
  }
}
