/** The records on the wire, flat: every field in declaration order, whatever groups the model reads them in. */
module Layout {
  import opened Wrappers
  import opened Wire
  import opened Crypto
  import opened Calendar
  import opened Records
  import Artifacts
  import Attestations
  import Events

  // ---- integers and options ----

  /** What a varint's bytes mean: seven bits each, least significant first. */
  function Meaning(b: bytes): nat {
    if b == [] then 0 else b[0] % 0x80 + 0x80 * Meaning(b[1..])
  }

  /** A varint means its number, every byte but the last says that more follow, and none is wasted. */
  lemma {:induction false} VarintMeans(n: nat)
    ensures var b := EncInt(n);
            b != [] && Meaning(b) == n && b[|b| - 1] < 0x80 && (forall i | 0 <= i < |b| - 1 :: b[i] >= 0x80) &&
            (|b| > 1 ==> b[|b| - 1] != 0)
  {
    if n >= 0x80 {
      VarintMeans(n / 0x80);
      var rest := EncInt(n / 0x80);
      assert EncInt(n)[1..] == rest && EncInt(n)[0] % 0x80 == n % 0x80;
    } else {
      assert [n][1..] == [];
    }
  }

  // ---- pieces ----

  function Joined(pieces: seq<bytes>): bytes {
    if pieces == [] then [] else pieces[0] + Joined(pieces[1..])
  }

  lemma {:induction false} JoinedConcat(a: seq<bytes>, b: seq<bytes>)
    ensures Joined(a + b) == Joined(a) + Joined(b)
  {
    if a == [] {
      assert a + b == b;
    } else {
      JoinedConcat(a[1..], b);
      assert (a + b)[1..] == a[1..] + b;
      Assoc(a[0], Joined(a[1..]), Joined(b));
    }
  }

  /** Values one after the other are their bytes one after the other. */
  lemma {:induction false} EncAllJoins(vals: seq<Val>, pieces: seq<bytes>)
    requires |vals| == |pieces| && forall i | 0 <= i < |vals| :: Enc(vals[i]) == pieces[i]
    ensures EncAll(vals) == Joined(pieces)
  {
    if vals != [] {
      EncAllJoins(vals[1..], pieces[1..]);
    }
  }

  function Str(t: Text): bytes {
    EncInt(|t|) + t
  }

  function OptStr(t: Option<Text>): bytes {
    if t.Some? then [1] + Str(t.value) else [0]
  }

  function OptHash(h: Option<Hash>): bytes {
    if h.Some? then [1] + h.value else [0]
  }

  /** The year zig-zag, then month and day as single bytes. */
  function Day(d: Date): bytes {
    EncInt(if d.year >= 0 then 2 * d.year else -2 * d.year - 1) + [d.month, d.day]
  }

  function OptDay(d: Option<Date>): bytes {
    if d.Some? then [1] + Day(d.value) else [0]
  }

  function Ver(v: SemVer): bytes {
    EncInt(v.major) + EncInt(v.minor) + EncInt(v.patch)
  }

  function Strs(ts: seq<Text>): seq<bytes> {
    seq(|ts|, i requires 0 <= i < |ts| => Str(ts[i]))
  }

  function TokenBytes(t: TimestampToken): bytes {
    (match t.class_
     case Rfc3161External(id) => [0] + Str(id)
     case Rfc3161Internal(id) => [1] + Str(id)
     case Mock => [2]) +
    Str(t.token) + EncInt(t.claimedTime)
  }

  function ScopeBytes(s: Scope): bytes {
    match s
    case RuleIds(ids) => [0] + EncInt(|ids|) + Joined(Strs(ids))
    case WholeArtifact => [1]
  }

  function PayloadBytes(p: Payload): bytes {
    match p
    case Rules(rules) => [0] + EncInt(|rules|) + Joined(Strs(rules))
    case Intent(spec) => [1] + Str(spec)
  }

  lemma TextPiece(t: Text)
    ensures Enc(VBlob(t)) == Str(t)
  {
  }

  lemma OptPieces(t: Option<Text>, h: Option<Hash>)
    ensures Enc(OptTextVal(t)) == OptStr(t) && Enc(OptHashVal(h)) == OptHash(h)
  {
  }

  lemma DayPiece(d: Date)
    ensures Enc(DateVal(d)) == Day(d)
  {
    var vals := [VInt(ZigZag(d.year)), VRaw([d.month]), VRaw([d.day])];
    EncAllJoins(vals, [EncInt(ZigZag(d.year)), [d.month], [d.day]]);
    ThreeJoined(EncInt(ZigZag(d.year)), [d.month], [d.day]);
  }

  lemma ThreeJoined(a: bytes, b: bytes, c: bytes)
    ensures Joined([a, b, c]) == a + b + c
  {
    assert [a, b, c][1..] == [b, c] && [b, c][1..] == [c] && [c][1..] == [];
    assert Joined([c]) == c + [];
  }

  lemma OptDayPiece(d: Option<Date>)
    ensures Enc(OptDateVal(d)) == OptDay(d)
  {
    if d.Some? {
      DayPiece(d.value);
    }
  }

  lemma VerPiece(v: SemVer)
    ensures Enc(SemVerVal(v)) == Ver(v)
  {
    EncAllJoins([VInt(v.major), VInt(v.minor), VInt(v.patch)], [EncInt(v.major), EncInt(v.minor), EncInt(v.patch)]);
    ThreeJoined(EncInt(v.major), EncInt(v.minor), EncInt(v.patch));
  }

  lemma TextsPiece(ts: Texts)
    ensures Enc(TextsVal(ts)) == EncInt(|ts|) + Joined(Strs(ts))
  {
    var items := TextsVal(ts).items;
    forall i | 0 <= i < |items|
      ensures Enc(items[i]) == Strs(ts)[i]
    {
      TextPiece(ts[i]);
    }
    ListJoins(items, Strs(ts));
  }

  lemma ListJoins(items: seq<Val>, pieces: seq<bytes>)
    requires |items| == |pieces| && forall i | 0 <= i < |items| :: Enc(items[i]) == pieces[i]
    ensures Enc(VList(items)) == EncInt(|items|) + Joined(pieces)
  {
    EncAllJoins(items, pieces);
  }

  lemma SmallTag(tag: byte, arm: Val)
    requires tag < 0x80
    ensures Enc(VTag(tag, arm)) == [tag] + Enc(arm)
    ensures arm == DONE ==> Enc(VTag(tag, arm)) == [tag]
  {
    assert Enc(DONE) == [];
  }

  lemma TokenPiece(t: TimestampToken)
    ensures Enc(TokenVal(t)) == TokenBytes(t)
  {
    var class_ := Enc(TsaClassVal(t.class_));
    EncAllJoins([TsaClassVal(t.class_), VBlob(t.token), VInt(t.claimedTime)], [class_, Str(t.token), EncInt(t.claimedTime)]);
    ThreeJoined(class_, Str(t.token), EncInt(t.claimedTime));
    match t.class_
    case Rfc3161External(id) => SmallTag(0, VBlob(id));
    case Rfc3161Internal(id) => SmallTag(1, VBlob(id));
    case Mock => SmallTag(2, DONE);
  }

  lemma ScopePiece(s: Scope)
    ensures Enc(ScopeVal(s)) == ScopeBytes(s)
  {
    match s
    case RuleIds(ids) => SmallTag(0, TextsVal(ids)); TextsPiece(ids);
    case WholeArtifact => SmallTag(1, DONE);
  }

  lemma PayloadPiece(p: Payload)
    ensures Enc(PayloadVal(p)) == PayloadBytes(p)
  {
    match p
    case Rules(rules) => SmallTag(0, TextsVal(rules)); TextsPiece(rules);
    case Intent(spec) => SmallTag(1, VBlob(spec));
  }

  /** Enumerations are numbered in declaration order. */
  function KindByte(k: ArtifactKind): byte {
    if k == RegimePack then 0 else if k == EquivalenceMatrix then 1 else if k == TestCorpus then 2 else if k == PolicyBundle then 3 else 4
  }

  function ClaimByte(t: AttestationType): byte {
    if t == SourceFidelity then 0 else if t == Interpretation then 1 else if t == ScenarioCoverage then 2
    else if t == EquivalenceClaim then 3 else 4
  }

  function RoleByte(r: SignerRole): byte {
    if r == DomainExpert then 0 else if r == PublicationApprover then 1 else 2
  }

  function StateByte(s: LifecycleState): byte {
    if s == Draft then 0 else if s == StructurallyVerified then 1 else if s == MlChecked then 2 else if s == ExpertAttested then 3
    else if s == Published then 4 else if s == Deprecated then 5 else 6
  }

  lemma EnumPieces(k: ArtifactKind, t: AttestationType, r: SignerRole, s: LifecycleState)
    ensures Enc(KindVal(k)) == [KindByte(k)] && Enc(ClaimVal(t)) == [ClaimByte(t)]
    ensures Enc(RoleVal(r)) == [RoleByte(r)] && Enc(StateVal(s)) == [StateByte(s)]
  {
    TagsAreBytes(k, t, r, s);
    SmallTag(KindTag(k), DONE);
    SmallTag(ClaimTag(t), DONE);
    SmallTag(RoleTag(r), DONE);
    SmallTag(StateTag(s), DONE);
  }

  lemma TagsAreBytes(k: ArtifactKind, t: AttestationType, r: SignerRole, s: LifecycleState)
    ensures KindTag(k) == KindByte(k) && ClaimTag(t) == ClaimByte(t) && RoleTag(r) == RoleByte(r) && StateTag(s) == StateByte(s)
  {
  }

  // ---- the manifest ----

  function TermsPieces(m: Manifest): seq<bytes> {
    [Str(m.regimeId), Day(m.effectiveFrom), OptDay(m.effectiveTo), Ver(m.compilerVersion), m.compilerBuildHash]
  }

  function VersionsPieces(m: Manifest): seq<bytes> {
    [Ver(m.irSchemaVersion), Str(m.codecVersion), Str(m.canonicalizationVersion), m.corpusRootHash, m.sourceCorpusHash,
     Str(m.attestationPolicyVersion)]
  }

  /** Thirteen fields. */
  function ManifestPieces(m: Manifest): seq<bytes> {
    [[KindByte(m.kind)], m.hash] + TermsPieces(m) + VersionsPieces(m)
  }

  lemma TermsPiece(m: Manifest)
    ensures Enc(ManifestTermsVal(m)) == Joined(TermsPieces(m))
  {
    DayPiece(m.effectiveFrom);
    OptDayPiece(m.effectiveTo);
    VerPiece(m.compilerVersion);
    EncAllJoins(ManifestTermsVal(m).vals, TermsPieces(m));
  }

  lemma VersionsPiece(m: Manifest)
    ensures Enc(ManifestVersionsVal(m)) == Joined(VersionsPieces(m))
  {
    VerPiece(m.irSchemaVersion);
    EncAllJoins(ManifestVersionsVal(m).vals, VersionsPieces(m));
  }

  lemma GroupsJoin(a: seq<bytes>, b: seq<bytes>, c: seq<bytes>)
    ensures Joined(a + b + c) == Joined(a) + Joined(b) + Joined(c)
  {
    JoinedConcat(a + b, c);
    JoinedConcat(a, b);
  }

  lemma ManifestLayout(m: Manifest)
    ensures Enc(ManifestVal(m)) == Joined(ManifestPieces(m))
  {
    var (k, t, u) := (KindVal(m.kind), ManifestTermsVal(m), ManifestVersionsVal(m));
    TermsPiece(m);
    VersionsPiece(m);
    EnumPieces(m.kind, SourceFidelity, DomainExpert, Draft);
    EncAllJoins([k, VRaw(m.hash), t, u], [[KindByte(m.kind)], m.hash, Enc(t), Enc(u)]);
    FourJoined([KindByte(m.kind)], m.hash, Enc(t), Enc(u));
    GroupsJoin([[KindByte(m.kind)], m.hash], TermsPieces(m), VersionsPieces(m));
    TwoJoined([KindByte(m.kind)], m.hash);
  }

  lemma TwoJoined(a: bytes, b: bytes)
    ensures Joined([a, b]) == a + b
  {
    assert [a, b][1..] == [b] && [b][1..] == [];
    assert Joined([b]) == b + [];
  }

  lemma FourJoined(a: bytes, b: bytes, c: bytes, d: bytes)
    ensures Joined([a, b, c, d]) == a + b + c + d
  {
    assert [a, b, c, d][1..] == [b, c, d];
    ThreeJoined(b, c, d);
  }

  // ---- the attestation ----

  function SignerPieces(a: Attestation): seq<bytes> {
    [a.artifactHash, ScopeBytes(a.scope), [ClaimByte(a.claim)], Str(a.signerIdentity), Str(a.keyId), [RoleByte(a.signerRole)]]
  }

  function AttestedPieces(a: Attestation): seq<bytes> {
    [Str(a.regimeId), Day(a.effectiveFrom), OptDay(a.effectiveTo), a.legalSourceHash, Ver(a.irSchemaVersion), Ver(a.compilerVersion)]
  }

  function PolicyPieces(a: Attestation): seq<bytes> {
    [Str(a.policyVersion), OptHash(a.testCorpusHash), TokenBytes(a.timestamp), OptDay(a.expiration), OptStr(a.reviewerComments)]
  }

  /** What the signature of an attestation covers: its seventeen other fields. */
  function AttestationPieces(a: Attestation): seq<bytes> {
    SignerPieces(a) + AttestedPieces(a) + PolicyPieces(a)
  }

  lemma SignerPiece(a: Attestation)
    ensures Enc(SignerVal(a)) == Joined(SignerPieces(a))
  {
    ScopePiece(a.scope);
    EnumPieces(RegimePack, a.claim, a.signerRole, Draft);
    EncAllJoins(SignerVal(a).vals, SignerPieces(a));
  }

  lemma AttestedPiece(a: Attestation)
    ensures Enc(TermsVal(a)) == Joined(AttestedPieces(a))
  {
    DayPiece(a.effectiveFrom);
    OptDayPiece(a.effectiveTo);
    VerPiece(a.irSchemaVersion);
    VerPiece(a.compilerVersion);
    EncAllJoins(TermsVal(a).vals, AttestedPieces(a));
  }

  lemma PolicyPiece(a: Attestation)
    ensures Enc(PolicyVal(a)) == Joined(PolicyPieces(a))
  {
    OptPieces(a.reviewerComments, a.testCorpusHash);
    TokenPiece(a.timestamp);
    OptDayPiece(a.expiration);
    EncAllJoins(PolicyVal(a).vals, PolicyPieces(a));
  }

  lemma AttestationLayout(a: Attestation)
    ensures Attestations.PayloadPrefix(a) == Joined(AttestationPieces(a))
    ensures Enc(AttestationVal(a)) == Joined(AttestationPieces(a) + [a.signature])
  {
    SignerPiece(a);
    AttestedPiece(a);
    PolicyPiece(a);
    EncAllJoins(AttestationPayloadVals(a), [Enc(SignerVal(a)), Enc(TermsVal(a)), Enc(PolicyVal(a))]);
    ThreeJoined(Enc(SignerVal(a)), Enc(TermsVal(a)), Enc(PolicyVal(a)));
    GroupsJoin(SignerPieces(a), AttestedPieces(a), PolicyPieces(a));
    EncAllConcat(AttestationPayloadVals(a), [VRaw(a.signature)]);
    SignatureLast(AttestationPieces(a), a.signature);
  }

  lemma SignatureLast(pieces: seq<bytes>, signature: Sig)
    ensures Joined(pieces + [signature]) == Joined(pieces) + signature
    ensures EncAll([VRaw(signature)]) == signature
  {
    JoinedConcat(pieces, [signature]);
    assert [signature][1..] == [] && [VRaw(signature)][1..] == [];
    assert Joined([signature]) == signature + [];
    assert EncAll([VRaw(signature)]) == signature + [];
  }

  // ---- the event ----

  function OptState(s: Option<LifecycleState>): bytes {
    if s.Some? then [1, StateByte(s.value)] else [0]
  }

  /** What the registry root signs of an event: its nine other fields. */
  function EventPieces(e: Event): seq<bytes> {
    [e.artifactHash, EncInt(e.seqNo), OptState(e.priorState), [StateByte(e.newState)], Str(e.kind)] +
    [Str(e.authorityKeyId), [RoleByte(e.authorityRole)], TokenBytes(e.timestamp), OptHash(e.prevHash)]
  }

  lemma OptStatePiece(s: Option<LifecycleState>)
    ensures Enc(OptStateVal(s)) == OptState(s)
  {
    if s.Some? {
      EnumPieces(RegimePack, SourceFidelity, DomainExpert, s.value);
    }
  }

  lemma StepPiece(e: Event)
    ensures Enc(StepVal(e)) == Joined([e.artifactHash, EncInt(e.seqNo), OptState(e.priorState), [StateByte(e.newState)], Str(e.kind)])
  {
    OptStatePiece(e.priorState);
    EnumPieces(RegimePack, SourceFidelity, DomainExpert, e.newState);
    EncAllJoins(StepVal(e).vals, [e.artifactHash, EncInt(e.seqNo), OptState(e.priorState), [StateByte(e.newState)], Str(e.kind)]);
  }

  lemma OriginPiece(e: Event)
    ensures Enc(OriginVal(e)) ==
            Joined([Str(e.authorityKeyId), [RoleByte(e.authorityRole)], TokenBytes(e.timestamp), OptHash(e.prevHash)])
  {
    EnumPieces(RegimePack, SourceFidelity, e.authorityRole, Draft);
    TokenPiece(e.timestamp);
    OptPieces(None, e.prevHash);
    EncAllJoins(OriginVal(e).vals, [Str(e.authorityKeyId), [RoleByte(e.authorityRole)], TokenBytes(e.timestamp), OptHash(e.prevHash)]);
  }

  lemma EventLayout(e: Event)
    ensures Events.PayloadPrefix(e) == Joined(EventPieces(e))
    ensures Events.CanonicalBytes(e) == Joined(EventPieces(e) + [e.signature])
  {
    StepPiece(e);
    OriginPiece(e);
    EncAllJoins(EventPayloadVals(e), [Enc(StepVal(e)), Enc(OriginVal(e))]);
    TwoJoined(Enc(StepVal(e)), Enc(OriginVal(e)));
    JoinedConcat([e.artifactHash, EncInt(e.seqNo), OptState(e.priorState), [StateByte(e.newState)], Str(e.kind)],
                 [Str(e.authorityKeyId), [RoleByte(e.authorityRole)], TokenBytes(e.timestamp), OptHash(e.prevHash)]);
    EncAllConcat(EventPayloadVals(e), [VRaw(e.signature)]);
    SignatureLast(EventPieces(e), e.signature);
  }

  // ---- the file ----

  /** What the compiler hashes and signs: manifest, payload, span index, audit versions, consistency block. */
  function EnvelopePieces(a: Artifact): seq<bytes> {
    ManifestPieces(a.manifest) +
    [PayloadBytes(a.payload), Str(a.spanIndex), OptStr(a.audit.jurisdictionResolver) + OptStr(a.audit.scenarioCorpus), OptStr(a.consistency)]
  }

  function AttestationList(atts: seq<Attestation>): seq<bytes> {
    seq(|atts|, i requires 0 <= i < |atts| => Joined(AttestationPieces(atts[i]) + [atts[i].signature]))
  }

  /** The compiler signature, the attestations, and the draft marker. */
  function TailPieces(a: Artifact): seq<bytes> {
    [Str(a.compilerSignature.keyId) + a.compilerSignature.signature, EncInt(|a.attestations|) + Joined(AttestationList(a.attestations)), [0]]
  }

  lemma AuditPiece(a: AuditVersions)
    ensures Enc(AuditVal(a)) == OptStr(a.jurisdictionResolver) + OptStr(a.scenarioCorpus)
  {
    OptPieces(a.jurisdictionResolver, None);
    OptPieces(a.scenarioCorpus, None);
    EncAllJoins(AuditVal(a).vals, [OptStr(a.jurisdictionResolver), OptStr(a.scenarioCorpus)]);
    TwoJoined(OptStr(a.jurisdictionResolver), OptStr(a.scenarioCorpus));
  }

  lemma EnvelopeLayout(a: Artifact)
    ensures Artifacts.Envelope(a) == Joined(EnvelopePieces(a))
  {
    ManifestLayout(a.manifest);
    PayloadPiece(a.payload);
    AuditPiece(a.audit);
    OptPieces(a.consistency, None);
    var rest := [PayloadBytes(a.payload), Str(a.spanIndex), OptStr(a.audit.jurisdictionResolver) + OptStr(a.audit.scenarioCorpus), OptStr(a.consistency)];
    var vals := Artifacts.EnvelopeVals(a);
    EncAllJoins(vals[1..], rest);
    JoinedConcat(ManifestPieces(a.manifest), rest);
  }

  lemma AttestationsPiece(atts: Records.Attestations)
    ensures Enc(AttestationsVal(atts)) == EncInt(|atts|) + Joined(AttestationList(atts))
  {
    forall i | 0 <= i < |atts|
      ensures Enc(AttestationsVal(atts).items[i]) == AttestationList(atts)[i]
    {
      AttestationLayout(atts[i]);
    }
    ListJoins(AttestationsVal(atts).items, AttestationList(atts));
  }

  lemma CompilerSignaturePiece(c: CompilerSignature)
    ensures Enc(CompilerSignatureVal(c)) == Str(c.keyId) + c.signature
  {
    EncAllJoins(CompilerSignatureVal(c).vals, [Str(c.keyId), c.signature]);
    TwoJoined(Str(c.keyId), c.signature);
  }

  lemma TailLayout(a: Artifact)
    ensures EncAll(Artifacts.TailVals(a)) == Joined(TailPieces(a))
  {
    CompilerSignaturePiece(a.compilerSignature);
    AttestationsPiece(a.attestations);
    SmallTag(0, DONE);
    EncAllJoins(Artifacts.TailVals(a), TailPieces(a));
  }

  /** The whole file, byte for byte. */
  lemma FileLayout(a: Artifact)
    ensures Artifacts.Encode(a) == Joined(EnvelopePieces(a) + TailPieces(a))
  {
    EnvelopeLayout(a);
    TailLayout(a);
    EncAllConcat(Artifacts.EnvelopeVals(a), Artifacts.TailVals(a));
    JoinedConcat(EnvelopePieces(a), TailPieces(a));
  }
}
