/**
 The `.kew` file: a hashed and signed envelope, then the compiler signature, the attestations and the
 registry metadata.

 The content address is computed over the envelope with its own 32-byte slot zeroed, then patched into that
 slot, so a verifier has to zero the slot again before hashing.
 */
module Artifacts {
  import opened Wrappers
  import opened Wire
  import opened Crypto
  import opened Calendar
  import opened Records

  /** The canonical profile: what the canonicaliser makes of a rule, and what strict decoding accepts. */
  datatype Profile = Profile(
    nfc: Text -> bool,
    canonicalRule: Text -> Option<Text>,  // None: refused
    validRule: Text -> bool,
    spanIndex: Texts -> Text)

  /** What the canonicaliser produces, strict decoding accepts. */
  ghost predicate Faithful(p: Profile) {
    forall rule :: p.canonicalRule(rule).Some? ==> p.validRule(p.canonicalRule(rule).value)
  }

  datatype Error =
    | EnvelopeTruncated
    | Codec
    | TrailingBytes
    | NonCanonical
    | KindPayloadMismatch(kind: ArtifactKind)
    | HashMismatch(expected: Hash, got: Hash)

  // ---- validity ----

  predicate ValidDate(d: Date) {
    d.year >= 1900 && 1 <= d.month <= 12 && 1 <= d.day <= 31
  }

  /** The manifest check; assembling and strict decoding make the same one. */
  predicate ValidManifest(p: Profile, m: Manifest) {
    p.nfc(m.regimeId) && p.nfc(m.codecVersion) && p.nfc(m.canonicalizationVersion) &&
    p.nfc(m.attestationPolicyVersion) && ValidDate(m.effectiveFrom) &&
    (m.effectiveTo.Some? ==> ValidDate(m.effectiveTo.value))
  }

  predicate ValidPayload(p: Profile, payload: Payload) {
    payload.Rules? ==> forall i | 0 <= i < |payload.rules| :: p.validRule(payload.rules[i])
  }

  predicate KindMatches(kind: ArtifactKind, payload: Payload) {
    kind.IntentSpec? <==> payload.Intent?
  }

  predicate Canonical(p: Profile, a: Artifact) {
    ValidManifest(p, a.manifest) && KindMatches(a.manifest.kind, a.payload) && ValidPayload(p, a.payload)
  }

  // ---- encoding ----

  function EnvelopeVals(a: Artifact): (vs: seq<Val>)
    ensures FitsAll(ENVELOPE, vs)
  {
    [ManifestVal(a.manifest), PayloadVal(a.payload), VBlob(a.spanIndex), AuditVal(a.audit), OptTextVal(a.consistency)]
  }

  /** The registry metadata on the wire, always the draft marker. */
  const DRAFT_METADATA := VTag(0, DONE)

  function TailVals(a: Artifact): seq<Val> {
    [CompilerSignatureVal(a.compilerSignature), AttestationsVal(a.attestations), DRAFT_METADATA]
  }

  function Envelope(a: Artifact): bytes {
    EncAll(EnvelopeVals(a))
  }

  function Encode(a: Artifact): bytes {
    Enc(VStruct(EnvelopeVals(a) + TailVals(a)))
  }

  /** Replaces the attestations and encodes again. */
  function WithAttestations(a: Artifact, attestations: Attestations): (Artifact, bytes) {
    var a := a.(attestations := attestations);
    (a, Encode(a))
  }

  lemma EncodeSplits(a: Artifact)
    ensures Encode(a) == Envelope(a) + EncAll(TailVals(a))
    ensures EncAll(TailVals(a)) == Enc(CompilerSignatureVal(a.compilerSignature)) +
                                   (Enc(AttestationsVal(a.attestations)) + [0])
  {
    EncAllConcat(EnvelopeVals(a), TailVals(a));
    EncThree(CompilerSignatureVal(a.compilerSignature), AttestationsVal(a.attestations), DRAFT_METADATA);
    MetadataIsOneByte();
  }

  lemma EncThree(x: Val, y: Val, z: Val)
    ensures EncAll([x, y, z]) == Enc(x) + (Enc(y) + Enc(z))
  {
    assert [x, y, z][1..] == [y, z] && [y, z][1..] == [z] && [z][1..] == [];
    assert EncAll([z]) == Enc(z) + [];
  }

  lemma EncFour(w: Val, x: Val, y: Val, z: Val)
    ensures Enc(VStruct([w, x, y, z])) == Enc(w) + (Enc(x) + (Enc(y) + Enc(z)))
  {
    assert [w, x, y, z][1..] == [x, y, z];
    EncThree(x, y, z);
  }

  lemma Regroup(a: bytes, b: bytes, c: bytes, d: bytes, e: bytes)
    ensures (a + (b + (c + d))) + e == a + b + (c + d + e)
  {
  }

  lemma MetadataIsOneByte()
    ensures Enc(DRAFT_METADATA) == [0] && Dec(METADATA, [0]) == Got(DRAFT_METADATA, [])
  {
    assert Enc(DONE) == [];
    RoundTrip(METADATA, DRAFT_METADATA, []);
    assert [0] + [] == [0];
  }

  // ---- strict decoding ----

  function RecordOf(env: Val, signature: Val, attestations: Val): Artifact
    requires Fits(SStruct(ENVELOPE), env) && Fits(SStruct(COMPILER_SIGNATURE), signature)
    requires Fits(SList(ATTESTATION), attestations)
  {
    var f := ENVELOPE;
    Artifact(
      ManifestOf(At(f, env, 0)), PayloadOf(At(f, env, 1)), TextField(f, env, 2), AuditOf(At(f, env, 3)),
      OptTextOf(At(f, env, 4)), CompilerSignatureOf(signature), AttestationsOf(attestations))
  }

  function CheckRecord(p: Profile, a: Artifact, envelopeLen: nat): Result<(Artifact, nat), Error> {
    if !ValidManifest(p, a.manifest) then Err(NonCanonical)
    else if !KindMatches(a.manifest.kind, a.payload) then Err(KindPayloadMismatch(a.manifest.kind))
    else if !ValidPayload(p, a.payload) then Err(NonCanonical)
    else Ok((a, envelopeLen))
  }

  const SLOT: nat := 32

  /** How many bytes the kind they open with takes: one, or more in an over-long form. */
  function KindLength(b: bytes): (k: nat)
    requires Dec(KIND, b).Got?
    ensures 1 <= k <= |b| && Dec(KIND, b).rest == b[k..]
    ensures k == 1 <==> b[0] < 0x80
  {
    KindIsItsTag(b);
    |b| - |DecTag(b).rest|
  }

  lemma KindIsItsTag(b: bytes)
    requires Dec(KIND, b).Got?
    ensures DecTag(b).IntGot? && Dec(KIND, b) == Got(VTag(DecTag(b).n, DONE), DecTag(b).rest) && DecTag(b).n < 5
    ensures var k := |b| - |DecTag(b).rest|; 1 <= k <= |b| && DecTag(b).rest == b[k..] && (k == 1 <==> b[0] < 0x80)
  {
    TagLength(b);
  }

  lemma TagLength(b: bytes)
    requires DecTag(b).IntGot?
    ensures var k := |b| - |DecTag(b).rest|; 1 <= k <= |b| && DecTag(b).rest == b[k..] && (k == 1 <==> b[0] < 0x80)
  {
    IntLocal(5, 15, b, []);
    if b[0] >= 0x80 {
      IntLocal(4, 15, b[1..], []);
    }
  }

  /** The bytes open with a kind and then this hash. */
  predicate SlotHolds(b: bytes, hash: Hash) {
    Dec(KIND, b).Got? && KindLength(b) + SLOT <= |b| && b[KindLength(b)..KindLength(b) + SLOT] == hash
  }

  lemma ManifestHash(v: Val)
    requires Fits(SStruct(MANIFEST), v)
    ensures v.VStruct? && |v.vals| == 4 && v.vals[1].VRaw? && ManifestOf(v).hash == v.vals[1].raw
  {
    assert At(MANIFEST, v, 1) == v.vals[1];
  }

  lemma RawReads(size: nat, b: bytes)
    requires Dec(SRaw(size), b).Got?
    ensures size <= |b| && Dec(SRaw(size), b).val == VRaw(b[..size])
  {
  }

  lemma SlotAfterFirst(fields: seq<Shape>, b: bytes)
    requires |fields| >= 2 && fields[0] == KIND && fields[1] == SRaw(SLOT) && Dec(SStruct(fields), b).Got?
    ensures Dec(KIND, b).Got? && KindLength(b) + SLOT <= |b|
    ensures Dec(SStruct(fields), b).val.VStruct? && |Dec(SStruct(fields), b).val.vals| >= 2
    ensures Dec(SStruct(fields), b).val.vals[1] == VRaw(b[KindLength(b)..KindLength(b) + SLOT])
  {
    SecondField(fields, b);
    var k := KindLength(b);
    RawReads(SLOT, b[k..]);
    assert b[k..][..SLOT] == b[k..k + SLOT];
  }

  /** The slot of bytes that read as a manifest is right after the kind, and holds the record's hash. */
  lemma DecodedSlot(b: bytes)
    requires Dec(SStruct(MANIFEST), b).Got?
    ensures Fits(SStruct(MANIFEST), Dec(SStruct(MANIFEST), b).val)
    ensures SlotHolds(b, ManifestOf(Dec(SStruct(MANIFEST), b).val).hash)
  {
    SlotAfterFirst(MANIFEST, b);
    DecFits(SStruct(MANIFEST), b);
    ManifestHash(Dec(SStruct(MANIFEST), b).val);
  }

  lemma EnvelopeStart(b: bytes)
    requires Dec(SStruct(ENVELOPE), b).Got?
    ensures Dec(SStruct(MANIFEST), b).Got? && Fits(SStruct(ENVELOPE), Dec(SStruct(ENVELOPE), b).val)
    ensures At(ENVELOPE, Dec(SStruct(ENVELOPE), b).val, 0) == Dec(SStruct(MANIFEST), b).val
  {
    FirstField(ENVELOPE, b);
    DecFits(SStruct(ENVELOPE), b);
  }

  lemma ReadAlone(s: Shape, b: bytes)
    requires Dec(s, b).Got?
    ensures |Dec(s, b).rest| <= |b| && Dec(s, Used(b, Dec(s, b).rest)) == Got(Dec(s, b).val, [])
  {
    Local(s, b, []);
    var prefix := Used(b, Dec(s, b).rest);
    assert prefix + [] == prefix;
  }

  lemma EnvelopeSlot(b: bytes)
    requires Dec(SStruct(ENVELOPE), b).Got?
    ensures Fits(SStruct(ENVELOPE), Dec(SStruct(ENVELOPE), b).val)
    ensures SlotHolds(b, ManifestOf(At(ENVELOPE, Dec(SStruct(ENVELOPE), b).val, 0)).hash)
  {
    EnvelopeStart(b);
    DecodedSlot(b);
  }

  lemma PrefixSlot(b: bytes)
    requires Dec(SStruct(ENVELOPE), b).Got?
    ensures var read := Dec(SStruct(ENVELOPE), b);
            |read.rest| <= |b| && Fits(SStruct(ENVELOPE), read.val) &&
            SlotHolds(Used(b, read.rest), ManifestOf(At(ENVELOPE, read.val, 0)).hash)
  {
    ReadAlone(SStruct(ENVELOPE), b);
    EnvelopeSlot(Used(b, Dec(SStruct(ENVELOPE), b).rest));
  }

  datatype Parts = Parts(envelope: Val, signature: Val, attestations: Val, envelopeLen: nat)

  /** The reads, in order: the envelope first, whose end fixes the hashed range, then the three fields after it. */
  function ReadParts(b: bytes): (r: Result<Parts, Error>)
    ensures r.Ok? ==> Fits(SStruct(ENVELOPE), r.value.envelope) && r.value.envelopeLen < |b|
    ensures r.Ok? ==> SlotHolds(b[..r.value.envelopeLen], ManifestOf(At(ENVELOPE, r.value.envelope, 0)).hash)
    ensures r.Ok? ==> Fits(SStruct(COMPILER_SIGNATURE), r.value.signature)
    ensures r.Ok? ==> Fits(SList(ATTESTATION), r.value.attestations)
  {
    match Dec(SStruct(ENVELOPE), b)
    case End => Err(EnvelopeTruncated)
    case Bad => Err(Codec)
    case Got(envelope, tail) =>
      PrefixSlot(b);
      ReadTail(envelope, |b| - |tail|, tail)
  }

  lemma TailOf(b: bytes)
    requires Dec(SStruct(ENVELOPE), b).Got?
    ensures var r := Dec(SStruct(ENVELOPE), b); |r.rest| <= |b| && ReadParts(b) == ReadTail(r.val, |b| - |r.rest|, r.rest)
  {
    PrefixSlot(b);
    match Dec(SStruct(ENVELOPE), b)
    case Got(envelope, tail) => assert ReadParts(b) == ReadTail(envelope, |b| - |tail|, tail);
    case End => assert false;
    case Bad => assert false;
  }

  function ReadTail(envelope: Val, envelopeLen: nat, tail: bytes): (r: Result<Parts, Error>)
    ensures r.Ok? ==> r.value.envelope == envelope && r.value.envelopeLen == envelopeLen && tail != []
    ensures r.Ok? ==> Fits(SStruct(COMPILER_SIGNATURE), r.value.signature)
    ensures r.Ok? ==> Fits(SList(ATTESTATION), r.value.attestations)
  {
    match Dec(SStruct(COMPILER_SIGNATURE), tail)
    case Got(signature, afterSignature) =>
      (match Dec(SList(ATTESTATION), afterSignature)
       case Got(attestations, afterAttestations) =>
         (match Dec(METADATA, afterAttestations)
          case Got(_, rest) =>
            DecFits(SStruct(COMPILER_SIGNATURE), tail);
            FirstField(COMPILER_SIGNATURE, tail);
            DecFits(SList(ATTESTATION), afterSignature);
            if rest != [] then Err(TrailingBytes)
            else Ok(Parts(envelope, signature, attestations, envelopeLen))
          case _ => Err(Codec))
       case _ => Err(Codec))
    case _ => Err(Codec)
  }

  /** The record and the length of its envelope, or the first thing wrong with the bytes. */
  function Decode(p: Profile, b: bytes): (r: Result<(Artifact, nat), Error>)
    ensures r.Ok? ==> Canonical(p, r.value.0) && r.value.1 < |b| && SlotHolds(b[..r.value.1], r.value.0.manifest.hash)
  {
    match ReadParts(b)
    case Err(e) => Err(e)
    case Ok(parts) => CheckRecord(p, RecordOf(parts.envelope, parts.signature, parts.attestations), parts.envelopeLen)
  }

  lemma RecordRoundTrip(a: Artifact)
    ensures Fits(SStruct(ENVELOPE), VStruct(EnvelopeVals(a)))
    ensures RecordOf(VStruct(EnvelopeVals(a)), CompilerSignatureVal(a.compilerSignature),
                     AttestationsVal(a.attestations)) == a
  {
    EnvelopeFields(a);
    AttestationsRoundTrip(a.attestations);
    CompilerSignatureRoundTrip(a.compilerSignature);
  }

  lemma EnvelopeFields(a: Artifact)
    ensures Fits(SStruct(ENVELOPE), VStruct(EnvelopeVals(a)))
    ensures var (f, v) := (ENVELOPE, VStruct(EnvelopeVals(a)));
            ManifestOf(At(f, v, 0)) == a.manifest && PayloadOf(At(f, v, 1)) == a.payload && TextField(f, v, 2) == a.spanIndex &&
            AuditOf(At(f, v, 3)) == a.audit && OptTextOf(At(f, v, 4)) == a.consistency
  {
    var (f, v) := (ENVELOPE, VStruct(EnvelopeVals(a)));
    assert At(f, v, 0) == ManifestVal(a.manifest) && At(f, v, 1) == PayloadVal(a.payload);
    assert At(f, v, 3) == AuditVal(a.audit) && At(f, v, 4) == OptTextVal(a.consistency);
    ManifestRoundTrip(a.manifest);
    PayloadRoundTrip(a.payload);
    AuditRoundTrip(a.audit);
  }

  lemma AuditRoundTrip(x: AuditVersions)
    ensures AuditOf(AuditVal(x)) == x
  {
  }

  lemma CompilerSignatureRoundTrip(s: CompilerSignature)
    ensures CompilerSignatureOf(CompilerSignatureVal(s)) == s
  {
  }

  /** What follows an envelope reads back, whatever the envelope was. */
  lemma TailReads(env: Val, len: nat, a: Artifact)
    ensures ReadTail(env, len, EncAll(TailVals(a))) ==
            Ok(Parts(env, CompilerSignatureVal(a.compilerSignature), AttestationsVal(a.attestations), len))
  {
    var s, t := CompilerSignatureVal(a.compilerSignature), AttestationsVal(a.attestations);
    EncodeSplits(a);
    RoundTrip(SStruct(COMPILER_SIGNATURE), s, Enc(t) + [0]);
    RoundTrip(SList(ATTESTATION), t, [0]);
    MetadataIsOneByte();
  }

  lemma StructReads(fields: seq<Shape>, vals: seq<Val>, tail: bytes)
    requires FitsAll(fields, vals)
    ensures Dec(SStruct(fields), EncAll(vals) + tail) == Got(VStruct(vals), tail)
  {
    RoundTripFields(fields, vals, tail);
  }

  lemma PartsRead(a: Artifact)
    ensures ReadParts(Encode(a)) == Ok(Parts(
              VStruct(EnvelopeVals(a)), CompilerSignatureVal(a.compilerSignature), AttestationsVal(a.attestations),
              |Envelope(a)|))
  {
    EncodeSplits(a);
    StructReads(ENVELOPE, EnvelopeVals(a), EncAll(TailVals(a)));
    TailReads(VStruct(EnvelopeVals(a)), |Envelope(a)|, a);
  }

  /** Strict decoding inverts encoding on canonical records, and rejects every other record it is given. */
  lemma DecodeEncode(p: Profile, a: Artifact)
    ensures Decode(p, Encode(a)) == CheckRecord(p, a, |Envelope(a)|)
    ensures Decode(p, Encode(a)).Ok? <==> Canonical(p, a)
  {
    PartsRead(a);
    RecordRoundTrip(a);
  }

  // ---- content addressing ----

  function HashOffset(kind: ArtifactKind): nat {
    |Enc(KindVal(kind))|
  }

  /** The buffer with the 32 bytes at `offset` replaced. */
  function Patched(b: bytes, offset: nat, hash: Hash): (r: bytes)
    requires offset + SLOT <= |b|
    ensures |r| == |b| && r[offset..offset + SLOT] == hash
  {
    b[..offset] + hash + b[offset + SLOT..]
  }

  /** The hash of an envelope with its slot zeroed, whatever the slot holds. */
  function ContentHash(c: Suite, prefix: bytes): Result<Hash, Error> {
    match Dec(KIND, prefix)
    case Got(kind, _) =>
      DecFits(KIND, prefix);
      var offset := HashOffset(KindOf(kind));
      if |prefix| < offset + SLOT then Err(EnvelopeTruncated)
      else Ok(c.blake3(Patched(prefix, offset, ZERO_HASH)))
    case _ => Err(EnvelopeTruncated)
  }

  /** Content hashing as the code does it: copy the prefix, zero-fill the slot in place, hash the buffer. */
  method ComputeContentHash(c: Suite, prefix: bytes) returns (r: Result<Hash, Error>)
    ensures r == ContentHash(c, prefix)
  {
    var kind := Dec(KIND, prefix);
    if !kind.Got? {
      return Err(EnvelopeTruncated);
    }
    DecFits(KIND, prefix);
    var offset := HashOffset(KindOf(kind.val));
    if |prefix| < offset + SLOT {
      return Err(EnvelopeTruncated);
    }
    var zeroed := new byte[|prefix|](i requires 0 <= i < |prefix| => prefix[i]);
    assert zeroed[..] == prefix;
    Overwrite(zeroed, offset, ZERO_HASH);
    r := Ok(c.blake3(zeroed[..]));
  }

  /** Copies a hash over 32 bytes of a buffer, in place. */
  method Overwrite(buffer: array<byte>, offset: nat, hash: Hash)
    requires offset + SLOT <= buffer.Length
    modifies buffer
    ensures buffer[..] == Patched(old(buffer[..]), offset, hash)
  {
    for i := 0 to SLOT
      invariant buffer[..] == old(buffer[..offset]) + hash[..i] + old(buffer[offset + i..])
    {
      buffer[offset + i] := hash[i];
    }
  }

  function VerifyHash(c: Suite, p: Profile, b: bytes): Result<Hash, Error> {
    match Decode(p, b)
    case Err(e) => Err(e)
    case Ok((a, envelopeLen)) =>
      match ContentHash(c, b[..envelopeLen])
      case Err(e) => Err(e)
      case Ok(got) => if got != a.manifest.hash then Err(HashMismatch(a.manifest.hash, got)) else Ok(got)
  }

  predicate SignatureHolds(c: Suite, publicKey: Hash, prefix: bytes, signature: CompilerSignature) {
    c.verify(publicKey, prefix, signature.signature)
  }

  lemma OffsetIsOne(kind: ArtifactKind)
    ensures HashOffset(kind) == 1 && Enc(KindVal(kind)) == [KindTag(kind)]
  {
    assert Enc(DONE) == [];
  }

  /** Everything in the envelope after the slot, which does not mention the hash. */
  function AfterSlot(a: Artifact): bytes {
    Enc(ManifestTermsVal(a.manifest)) + Enc(ManifestVersionsVal(a.manifest)) +
    EncAll([PayloadVal(a.payload), VBlob(a.spanIndex), AuditVal(a.audit), OptTextVal(a.consistency)])
  }

  lemma SlotPosition(a: Artifact)
    ensures Envelope(a) == [KindTag(a.manifest.kind)] + a.manifest.hash + AfterSlot(a)
  {
    var m := a.manifest;
    var (k, t, u) := (KindVal(m.kind), ManifestTermsVal(m), ManifestVersionsVal(m));
    var rest := [PayloadVal(a.payload), VBlob(a.spanIndex), AuditVal(a.audit), OptTextVal(a.consistency)];
    assert EnvelopeVals(a) == [ManifestVal(m)] + rest && ([ManifestVal(m)] + rest)[1..] == rest;
    OffsetIsOne(m.kind);
    EncFour(k, VRaw(m.hash), t, u);
    Regroup(Enc(k), m.hash, Enc(t), Enc(u), EncAll(rest));
  }

  function WithHash(a: Artifact, hash: Hash): Artifact {
    a.(manifest := a.manifest.(hash := hash))
  }

  /** Zero-then-patch: overwriting the slot of the encoded envelope is encoding the record with that hash. */
  lemma PatchIsReencode(a: Artifact, hash: Hash)
    ensures 1 + SLOT <= |Envelope(a)|
    ensures Envelope(WithHash(a, hash)) == Patched(Envelope(a), 1, hash)
  {
    SlotPosition(a);
    SlotPosition(WithHash(a, hash));
  }

  lemma ContentHashOf(c: Suite, a: Artifact)
    ensures ContentHash(c, Envelope(a)) == Ok(c.blake3(Envelope(WithHash(a, ZERO_HASH))))
  {
    var kind := KindVal(a.manifest.kind);
    SlotPosition(a);
    OffsetIsOne(a.manifest.kind);
    assert Envelope(a) == Enc(kind) + (a.manifest.hash + AfterSlot(a));
    RoundTrip(KIND, kind, a.manifest.hash + AfterSlot(a));
    PatchIsReencode(a, ZERO_HASH);
  }

  // ---- assembling ----

  /** The rules in canonical form, or None when one of them is refused. */
  function CanonicalRules(p: Profile, rules: seq<Text>): (r: Option<seq<Text>>)
    ensures r.Some? <==> forall i | 0 <= i < |rules| :: p.canonicalRule(rules[i]).Some?
    ensures r.Some? ==> |r.value| == |rules|
    ensures r.Some? ==> forall i | 0 <= i < |rules| :: p.canonicalRule(rules[i]) == Some(r.value[i])
  {
    if rules == [] then Some([])
    else
      var last := |rules| - 1;
      match (CanonicalRules(p, rules[..last]), p.canonicalRule(rules[last]))
      case (Some(done), Some(rule)) => Some(done + [rule])
      case _ => None
  }

  /** The record before it is hashed and signed. */
  function Unsealed(p: Profile, m: Manifest, payload: Payload, audit: AuditVersions, keyId: Text): Artifact {
    var indexed := if payload.Rules? then payload.rules else [];
    Artifact(m, payload, p.spanIndex(indexed), audit, None, CompilerSignature(keyId, ZERO_SIG), [])
  }

  /** Hash over the zeroed slot, then patch, then sign the patched envelope. */
  function Seal(c: Suite, key: bytes, a: Artifact): Artifact {
    var a := WithHash(a, c.blake3(Envelope(WithHash(a, ZERO_HASH))));
    a.(compilerSignature := a.compilerSignature.(signature := c.sign(key, Envelope(a))))
  }

  function Assemble(c: Suite, p: Profile, m: Manifest, payload: Payload, audit: AuditVersions, key: bytes, keyId: Text)
    : Result<(Artifact, bytes), Error>
  {
    if !ValidManifest(p, m) then Err(NonCanonical)
    else
      match payload
      case Intent(_) => Sealed(c, key, Unsealed(p, m, payload, audit, keyId))
      case Rules(rules) =>
        match CanonicalRules(p, rules)
        case None => Err(NonCanonical)
        case Some(canonical) => Sealed(c, key, Unsealed(p, m, Rules(canonical), audit, keyId))
  }

  function Sealed(c: Suite, key: bytes, a: Artifact): Result<(Artifact, bytes), Error> {
    var a := Seal(c, key, a);
    Ok((a, Encode(a)))
  }

  /** Assembly as the code does it, on bytes: encode once, patch the buffer in place, sign it, append the rest. */
  method AssemblePayload(c: Suite, p: Profile, m: Manifest, payload: Payload, audit: AuditVersions, key: bytes, keyId: Text)
    returns (r: Result<(Artifact, bytes), Error>)
    ensures r == Assemble(c, p, m, payload, audit, key, keyId)
  {
    var manifest := m.(hash := ZERO_HASH);
    if !ValidManifest(p, manifest) {
      return Err(NonCanonical);
    }
    var canonical := payload;
    if payload.Rules? {
      var rules := CanonicaliseAll(p, payload.rules);
      if rules.None? {
        return Err(NonCanonical);
      }
      canonical := Rules(rules.value);
    }
    var a := Unsealed(p, manifest, canonical, audit, keyId);
    assert a == WithHash(Unsealed(p, m, canonical, audit, keyId), ZERO_HASH);
    var kew;
    a, kew := SealBytes(c, key, a);
    r := Ok((a, kew));
  }

  method CanonicaliseAll(p: Profile, rules: Texts) returns (r: Option<Texts>)
    ensures r == CanonicalRules(p, rules)
  {
    var done: seq<Text> := [];
    for i := 0 to |rules|
      invariant |done| == i && CanonicalRules(p, rules[..i]) == Some(done)
    {
      assert rules[..i + 1][..i] == rules[..i];
      var rule := p.canonicalRule(rules[i]);
      if rule.None? {
        assert rules[..i + 1][i] == rules[i];
        return None;
      }
      done := done + [rule.value];
    }
    assert rules[..|rules|] == rules;
    r := Some(done);
  }

  method SealBytes(c: Suite, key: bytes, unsealed: Artifact) returns (a: Artifact, kew: bytes)
    requires unsealed.manifest.hash == ZERO_HASH
    ensures a == Seal(c, key, unsealed) && kew == Encode(a)
  {
    var envelope := Envelope(unsealed);
    var offset := HashOffset(unsealed.manifest.kind);
    var hash := c.blake3(envelope);
    SealIsPatch(c, key, unsealed);
    var buffer := new byte[|envelope|](i requires 0 <= i < |envelope| => envelope[i]);
    assert buffer[..] == envelope;
    Overwrite(buffer, offset, hash);
    var signature := c.sign(key, buffer[..]);
    a := WithHash(unsealed, hash).(compilerSignature := unsealed.compilerSignature.(signature := signature));
    EncodePieces(a);
    kew := buffer[..] + Enc(CompilerSignatureVal(a.compilerSignature)) + Enc(AttestationsVal(a.attestations)) + Enc(DRAFT_METADATA);
  }

  /** Sealing on records is patching and signing on bytes. */
  lemma SealIsPatch(c: Suite, key: bytes, u: Artifact)
    requires u.manifest.hash == ZERO_HASH
    ensures HashOffset(u.manifest.kind) == 1 && 1 + SLOT <= |Envelope(u)|
    ensures var hash := c.blake3(Envelope(u)); var patched := Patched(Envelope(u), 1, hash);
            Seal(c, key, u) == WithHash(u, hash).(compilerSignature := u.compilerSignature.(signature := c.sign(key, patched))) &&
            Envelope(Seal(c, key, u)) == patched
  {
    assert WithHash(u, ZERO_HASH) == u;
    var hash := c.blake3(Envelope(u));
    PatchIsReencode(u, hash);
    OffsetIsOne(u.manifest.kind);
    EnvelopeIgnoresTail(WithHash(u, hash), Seal(c, key, u));
  }

  lemma EncodePieces(a: Artifact)
    ensures Encode(a) == Envelope(a) + Enc(CompilerSignatureVal(a.compilerSignature)) + Enc(AttestationsVal(a.attestations)) +
                         Enc(DRAFT_METADATA)
  {
    EncodeSplits(a);
    MetadataIsOneByte();
    Flatten(Envelope(a), Enc(CompilerSignatureVal(a.compilerSignature)), Enc(AttestationsVal(a.attestations)), [0]);
  }

  lemma Flatten(a: bytes, b: bytes, c: bytes, d: bytes)
    ensures a + (b + (c + d)) == a + b + c + d
  {
  }

  // ---- what a sealed artifact guarantees ----

  /** The address is the hash of the zeroed envelope and the signature covers the patched one. */
  predicate IsSealed(c: Suite, key: bytes, a: Artifact) {
    a.manifest.hash == c.blake3(Envelope(WithHash(a, ZERO_HASH))) &&
    a.compilerSignature.signature == c.sign(key, Envelope(a))
  }

  lemma SealSeals(c: Suite, key: bytes, a: Artifact)
    ensures IsSealed(c, key, Seal(c, key, a))
  {
    var b := Seal(c, key, a);
    assert WithHash(b, ZERO_HASH).manifest == WithHash(a, ZERO_HASH).manifest;
    EnvelopeIgnoresTail(WithHash(b, ZERO_HASH), WithHash(a, ZERO_HASH));
    EnvelopeIgnoresTail(b, WithHash(a, b.manifest.hash));
  }

  /** The envelope mentions neither the compiler signature nor the attestations. */
  lemma EnvelopeIgnoresTail(a: Artifact, b: Artifact)
    requires a.(compilerSignature := b.compilerSignature, attestations := b.attestations) == b
    ensures Envelope(a) == Envelope(b)
  {
    assert EnvelopeVals(a) == EnvelopeVals(b);
  }

  /** A canonical sealed record's bytes decode to the record, rehash to its address and carry a valid signature. */
  lemma SealedVerifies(c: Suite, p: Profile, key: bytes, a: Artifact)
    requires Sound(c) && Canonical(p, a) && IsSealed(c, key, a)
    ensures Decode(p, Encode(a)) == Ok((a, |Envelope(a)|)) && Envelope(a) <= Encode(a)
    ensures VerifyHash(c, p, Encode(a)) == Ok(a.manifest.hash)
    ensures SignatureHolds(c, c.publicOf(key), Envelope(a), a.compilerSignature)
  {
    DecodeEncode(p, a);
    EncodeSplits(a);
    SplitAt(Envelope(a), EncAll(TailVals(a)));
    ContentHashOf(c, a);
  }

  /**
   The round trip of assembly: what was assembled decodes back with its exact envelope length, its address
   and its signature hold; except that assembling does not compare kind and payload and decoding does.
   */
  lemma AssembleRoundTrip(c: Suite, p: Profile, m: Manifest, payload: Payload, audit: AuditVersions, key: bytes, keyId: Text)
    requires Sound(c) && Faithful(p) && Assemble(c, p, m, payload, audit, key, keyId).Ok?
    ensures var (a, kew) := Assemble(c, p, m, payload, audit, key, keyId).value;
            var prefix := Envelope(a);
            prefix <= kew && IsSealed(c, key, a) && a.compilerSignature.keyId == keyId &&
            if KindMatches(m.kind, payload) then
              Decode(p, kew) == Ok((a, |prefix|)) && VerifyHash(c, p, kew) == Ok(a.manifest.hash) &&
              SignatureHolds(c, c.publicOf(key), prefix, a.compilerSignature)
            else Decode(p, kew) == Err(KindPayloadMismatch(m.kind))
  {
    var (a, kew) := Assemble(c, p, m, payload, audit, key, keyId).value;
    var canonical := if payload.Rules? then Rules(CanonicalRules(p, payload.rules).value) else payload;
    var u := Unsealed(p, m, canonical, audit, keyId);
    SealSeals(c, key, u);
    EncodeSplits(a);
    if KindMatches(m.kind, payload) {
      SealedVerifies(c, p, key, a);
    } else {
      DecodeEncode(p, a);
    }
  }

  /** The rules one by one in canonical form. */
  predicate Canonicalised(p: Profile, rules: Texts, canonical: Texts) {
    |canonical| == |rules| && forall i | 0 <= i < |rules| :: p.canonicalRule(rules[i]) == Some(canonical[i])
  }

  /** The record holds this content: the rules in canonical form and indexed, anything else as it was given. */
  predicate Holds(p: Profile, a: Artifact, m: Manifest, payload: Payload, audit: AuditVersions) {
    && a.manifest == m.(hash := a.manifest.hash)
    && a.audit == audit && a.consistency.None? && a.attestations == []
    && match payload
       case Rules(rules) => a.payload.Rules? && Canonicalised(p, rules, a.payload.rules) && a.spanIndex == p.spanIndex(a.payload.rules)
       case Intent(_) => a.payload == payload && a.spanIndex == p.spanIndex([])
  }

  lemma SealKeepsContent(c: Suite, p: Profile, key: bytes, a: Artifact, m: Manifest, payload: Payload, audit: AuditVersions)
    requires Holds(p, a, m, payload, audit)
    ensures Holds(p, Seal(c, key, a), m, payload, audit) && Seal(c, key, a).compilerSignature.keyId == a.compilerSignature.keyId
  {
  }

  lemma UnsealedHolds(p: Profile, m: Manifest, payload: Payload, canonical: Payload, audit: AuditVersions, keyId: Text)
    requires if payload.Rules? then canonical.Rules? && Canonicalised(p, payload.rules, canonical.rules) else canonical == payload
    ensures Holds(p, Unsealed(p, m, canonical, audit, keyId), m, payload, audit)
    ensures Unsealed(p, m, canonical, audit, keyId).compilerSignature.keyId == keyId
  {
  }

  /** What is assembled holds what it was given, under the given key; the only refusals are texts, dates and rules not canonical. */
  lemma AssembledExactly(c: Suite, p: Profile, m: Manifest, payload: Payload, audit: AuditVersions, key: bytes, keyId: Text)
    ensures var r := Assemble(c, p, m, payload, audit, key, keyId);
            (r.Ok? <==>
               p.nfc(m.regimeId) && p.nfc(m.codecVersion) && p.nfc(m.canonicalizationVersion) && p.nfc(m.attestationPolicyVersion) &&
               m.effectiveFrom.year >= 1900 && 1 <= m.effectiveFrom.month <= 12 && 1 <= m.effectiveFrom.day <= 31 &&
               (m.effectiveTo.Some? ==>
                  m.effectiveTo.value.year >= 1900 && 1 <= m.effectiveTo.value.month <= 12 && 1 <= m.effectiveTo.value.day <= 31) &&
               (payload.Rules? ==> forall i | 0 <= i < |payload.rules| :: p.canonicalRule(payload.rules[i]).Some?)) &&
            (r.Err? ==> r.error == NonCanonical) &&
            (r.Ok? ==>
               Holds(p, r.value.0, m, payload, audit) && r.value.0.compilerSignature.keyId == keyId && r.value.1 == Encode(r.value.0))
  {
    var canonical := if payload.Rules? then CanonicalRules(p, payload.rules) else None;
    if payload.Intent? || canonical.Some? {
      var kept := if payload.Rules? then Rules(canonical.value) else payload;
      UnsealedHolds(p, m, payload, kept, audit, keyId);
      SealKeepsContent(c, p, key, Unsealed(p, m, kept, audit, keyId), m, payload, audit);
    }
  }

  /**
   Replacing the attestations keeps every envelope byte, hence the envelope length, the address, and
   validity: only bytes after the envelope change.
   */
  lemma AttestationsStayOutside(c: Suite, p: Profile, key: bytes, a: Artifact, attestations: Attestations)
    ensures var (b, kew) := WithAttestations(a, attestations);
            b == a.(attestations := attestations) && Envelope(b) == Envelope(a) &&
            Envelope(a) <= kew && Envelope(a) <= Encode(a) &&
            ContentHash(c, Envelope(b)) == ContentHash(c, Envelope(a)) &&
            (Canonical(p, a) <==> Canonical(p, b)) && (IsSealed(c, key, a) <==> IsSealed(c, key, b))
  {
    var b := WithAttestations(a, attestations).0;
    EnvelopeIgnoresTail(a, b);
    EnvelopeIgnoresTail(WithHash(a, ZERO_HASH), WithHash(b, ZERO_HASH));
    EncodeSplits(a);
    EncodeSplits(b);
    SplitAt(Envelope(a), EncAll(TailVals(a)));
    SplitAt(Envelope(b), EncAll(TailVals(b)));
  }

  // ---- what the address binds ----

  /**
   What `VerifyHash` accepting says of the envelope bytes themselves: the slot after the kind holds the address, and the
   address is the hash of the envelope with 32 bytes zeroed, from where the slot is when the kind takes one byte.
   */
  lemma VerifiedPrefix(c: Suite, p: Profile, b: bytes)
    requires VerifyHash(c, p, b).Ok?
    ensures var h := VerifyHash(c, p, b).value; var len := Decode(p, b).value.1;
            len < |b| && SlotHolds(b[..len], h) && 1 + SLOT <= len && h == c.blake3(Patched(b[..len], 1, ZERO_HASH))
  {
    var prefix := b[..Decode(p, b).value.1];
    DecFits(KIND, prefix);
    OffsetIsOne(KindOf(Dec(KIND, prefix).val));
  }

  /** A kind's bytes are fixed by the first of them and their number. */
  lemma OverlongKindIsPadding(b: bytes)
    requires Dec(KIND, b).Got?
    ensures forall i | 1 <= i < KindLength(b) :: b[i] == if i == KindLength(b) - 1 then 0 else 0x80
  {
    KindIsItsTag(b);
    if KindLength(b) > 1 {
      assert DecInt(4, 15, b[1..]) == IntGot(0, DecTag(b).rest);
      ZeroIsPadding(4, 15, b[1..]);
      forall i | 1 <= i < KindLength(b)
        ensures b[i] == if i == KindLength(b) - 1 then 0 else 0x80
      {
        assert b[i] == b[1..][i - 1];
      }
    }
  }

  lemma {:induction false} ZeroIsPadding(width: nat, top: septet, b: bytes)
    requires DecInt(width, top, b).IntGot? && DecInt(width, top, b).n == 0
    ensures var k := |b| - |DecInt(width, top, b).rest|;
            1 <= k <= |b| && forall i | 0 <= i < k :: b[i] == if i == k - 1 then 0 else 0x80
  {
    if b[0] >= 0x80 {
      ZeroIsPadding(width - 1, top, b[1..]);
      var k := |b| - |DecInt(width, top, b).rest|;
      forall i | 1 <= i < k
        ensures b[i] == if i == k - 1 then 0 else 0x80
      {
        assert b[i] == b[1..][i - 1];
      }
    }
  }

  /** Two kinds in over-long forms of different length. */
  predicate OverlongApart(x: bytes, y: bytes)
    requires Dec(KIND, x).Got? && Dec(KIND, y).Got?
  {
    KindLength(x) > 1 && KindLength(y) > 1 && KindLength(x) != KindLength(y)
  }

  /** Prefixes that hold one hash in their slots and are equal once zeroed are equal, if their kinds take equally long. */
  lemma SameOnceZeroed(x: bytes, y: bytes, h: Hash)
    requires SlotHolds(x, h) && SlotHolds(y, h) && !OverlongApart(x, y)
    requires Patched(x, 1, ZERO_HASH) == Patched(y, 1, ZERO_HASH)
    ensures x == y
  {
    var (u, v) := (Patched(x, 1, ZERO_HASH), Patched(y, 1, ZERO_HASH));
    assert x[0] == u[0] == v[0] == y[0];
    var k := KindLength(x);
    OverlongKindIsPadding(x);
    OverlongKindIsPadding(y);
    forall i | 0 <= i < |x|
      ensures x[i] == y[i]
    {
      if k <= i < k + SLOT {
        assert x[i] == x[k..k + SLOT][i - k] == h[i - k] == y[k..k + SLOT][i - k];
      } else if i >= k {
        assert x[i] == u[i] == v[i] == y[i];
      }
    }
  }

  /** Over-long kinds of different lengths, and otherwise nothing that zeroing leaves to tell the two apart. */
  predicate HiddenByZeroing(x: bytes, y: bytes)
    requires Dec(KIND, x).Got? && Dec(KIND, y).Got?
  {
    OverlongApart(x, y) && |x| == |y| && 1 + SLOT <= |x| && x[0] == y[0] && x[1 + SLOT..] == y[1 + SLOT..]
  }

  /**
   When the content address binds the envelope: two files that verify at one address have byte-identical envelopes, or
   zeroed envelopes that are a hash collision, exactly when zeroing does not hide the difference of two over-long kinds.
   */
  lemma AddressBindsEnvelope(c: Suite, p: Profile, b: bytes, d: bytes)
    requires VerifyHash(c, p, b).Ok? && VerifyHash(c, p, d) == VerifyHash(c, p, b)
    ensures var x, y := b[..Decode(p, b).value.1], d[..Decode(p, d).value.1];
            1 + SLOT <= |x| && 1 + SLOT <= |y| && Dec(KIND, x).Got? && Dec(KIND, y).Got? &&
            (x == y || Collision(c, Patched(x, 1, ZERO_HASH), Patched(y, 1, ZERO_HASH)) <==> !HiddenByZeroing(x, y))
  {
    VerifiedPrefix(c, p, b);
    VerifiedPrefix(c, p, d);
    var x, y := b[..Decode(p, b).value.1], d[..Decode(p, d).value.1];
    if HiddenByZeroing(x, y) {
      HiddenDiffer(x, y);
    } else if Patched(x, 1, ZERO_HASH) == Patched(y, 1, ZERO_HASH) {
      ZeroedAlike(x, y);
      SameOnceZeroed(x, y, VerifyHash(c, p, b).value);
    }
  }

  lemma HiddenDiffer(x: bytes, y: bytes)
    requires Dec(KIND, x).Got? && Dec(KIND, y).Got? && HiddenByZeroing(x, y)
    ensures x != y && Patched(x, 1, ZERO_HASH) == Patched(y, 1, ZERO_HASH)
  {
    assert x[..1] == y[..1];
  }

  /** What equal zeroed prefixes say of the prefixes. */
  lemma ZeroedAlike(x: bytes, y: bytes)
    requires 1 + SLOT <= |x| && 1 + SLOT <= |y| && Patched(x, 1, ZERO_HASH) == Patched(y, 1, ZERO_HASH)
    ensures |x| == |y| && x[0] == y[0] && x[1 + SLOT..] == y[1 + SLOT..]
  {
    var (u, v) := (Patched(x, 1, ZERO_HASH), Patched(y, 1, ZERO_HASH));
    assert x[0] == u[0] == v[0] == y[0];
    assert u[1 + SLOT..] == x[1 + SLOT..] && v[1 + SLOT..] == y[1 + SLOT..];
  }

  /** A kind in two bytes, then the slot. */
  function KindInTwo(hash: Hash, rest: bytes): bytes {
    [0x80, 0] + (hash + rest)
  }

  function KindInThree(hash: Hash, rest: bytes): bytes {
    [0x80, 0x80, 0] + (hash + rest)
  }

  /**
   The exception is real for prefixes: these two differ, hold one hash in their slots, and have one content hash under
   every hash function, because the 32 bytes zeroed are not quite the slot.
   */
  lemma OverlongKindsShareHash(c: Suite, hash: Hash, rest: bytes)
    requires hash[30] == hash[31]
    ensures var x, y := KindInTwo(hash, [hash[31]] + rest), KindInThree(hash, rest);
            x != y && SlotHolds(x, hash) && SlotHolds(y, hash) && OverlongApart(x, y) && ContentHash(c, x) == ContentHash(c, y)
  {
    var x, y := KindInTwo(hash, [hash[31]] + rest), KindInThree(hash, rest);
    OverlongKindReads([0x80, 0], hash + ([hash[31]] + rest));
    OverlongKindReads([0x80, 0x80, 0], hash + rest);
    assert x[2..34] == hash && y[3..35] == hash;
    assert x[1] != y[1];
    OffsetIsOne(RegimePack);
    SameFromThirtyThree(x, y);
  }

  lemma OverlongKindReads(kind: bytes, rest: bytes)
    requires kind == [0x80, 0] || kind == [0x80, 0x80, 0]
    ensures Dec(KIND, kind + rest) == Got(VTag(0, DONE), rest) && KindLength(kind + rest) == |kind|
  {
    var b := kind + rest;
    assert b[1..] == kind[1..] + rest;
    if |kind| == 3 {
      assert b[1..][1..] == kind[2..] + rest && b[1..][1..][1..] == rest;
      assert DecInt(3, 15, b[1..][1..]) == IntGot(0, rest);
      assert DecInt(4, 15, b[1..]) == IntGot(0, rest);
    } else {
      assert b[1..][1..] == rest;
      assert DecInt(4, 15, b[1..]) == IntGot(0, rest);
    }
    assert DecTag(b) == IntGot(0, rest);
  }

  lemma SameFromThirtyThree(x: bytes, y: bytes)
    requires 1 + SLOT <= |x| == |y| && x[0] == y[0] && forall i | 33 <= i < |x| :: x[i] == y[i]
    ensures Patched(x, 1, ZERO_HASH) == Patched(y, 1, ZERO_HASH)
  {
    assert x[..1] == y[..1] && x[33..] == y[33..];
  }

  /** Encoding a decoded file again gives its envelope back exactly when the file wrote every varint in least length. */
  lemma ReencodeKeepsEnvelopeExactly(p: Profile, b: bytes)
    requires Decode(p, b).Ok?
    ensures var (a, len) := Decode(p, b).value;
            Dec(SStruct(ENVELOPE), b).Got? && (Envelope(a) == b[..len] <==> Tight(SStruct(ENVELOPE), b))
  {
    var parts := DecodedParts(p, b);
    TightExactly(SStruct(ENVELOPE), b);
    EnvelopeWritesBack(parts.envelope, parts.signature, parts.attestations);
    assert Enc(VStruct(EnvelopeVals(Decode(p, b).value.0))) == Envelope(Decode(p, b).value.0);
  }

  lemma DecodedParts(p: Profile, b: bytes) returns (parts: Parts)
    requires Decode(p, b).Ok?
    ensures Fits(SStruct(ENVELOPE), parts.envelope) && Fits(SStruct(COMPILER_SIGNATURE), parts.signature)
    ensures Fits(SList(ATTESTATION), parts.attestations)
    ensures Decode(p, b).value.0 == RecordOf(parts.envelope, parts.signature, parts.attestations)
    ensures var read := Dec(SStruct(ENVELOPE), b);
            read.Got? && read.val == parts.envelope && |read.rest| <= |b| && Used(b, read.rest) == b[..Decode(p, b).value.1]
  {
    parts := ReadParts(b).value;
    PrefixSlot(b);
  }

  /** The envelope of a read value is written back to that value. */
  lemma EnvelopeWritesBack(env: Val, signature: Val, attestations: Val)
    requires Fits(SStruct(ENVELOPE), env) && Fits(SStruct(COMPILER_SIGNATURE), signature)
    requires Fits(SList(ATTESTATION), attestations)
    ensures VStruct(EnvelopeVals(RecordOf(env, signature, attestations))) == env
  {
    var f := ENVELOPE;
    EnvelopeGroups(env);
    EnvelopeGroupsWriteBack(RecordOf(env, signature, attestations), At(f, env, 0), At(f, env, 1), At(f, env, 3), At(f, env, 4));
  }

  lemma EnvelopeGroups(env: Val)
    requires Fits(SStruct(ENVELOPE), env)
    ensures var f := ENVELOPE;
            env == VStruct([At(f, env, 0), At(f, env, 1), VBlob(TextField(f, env, 2)), At(f, env, 3), At(f, env, 4)])
  {
    var f := ENVELOPE;
    assert env.vals == [At(f, env, 0), At(f, env, 1), At(f, env, 2), At(f, env, 3), At(f, env, 4)];
  }

  lemma EnvelopeGroupsWriteBack(a: Artifact, manifest: Val, payload: Val, audit: Val, consistency: Val)
    requires Fits(SStruct(MANIFEST), manifest) && Fits(PAYLOAD, payload)
    requires Fits(SStruct(AUDIT_FIELDS), audit) && Fits(SOpt(SBlob), consistency)
    requires a.manifest == ManifestOf(manifest) && a.payload == PayloadOf(payload)
    requires a.audit == AuditOf(audit) && a.consistency == OptTextOf(consistency)
    ensures EnvelopeVals(a) == [manifest, payload, VBlob(a.spanIndex), audit, consistency]
  {
    ManifestWritesBack(manifest);
    PayloadWritesBack(payload);
    AuditWritesBack(audit);
    OptTextWritesBack(consistency);
  }

  /**
   A verified file written again with other attestations verifies again exactly when its varints were of least length,
   barring a collision of its zeroed envelope with the one written.
   */
  lemma RewrittenFileVerifiesExactly(c: Suite, p: Profile, b: bytes, attestations: Attestations)
    requires VerifyHash(c, p, b).Ok?
    ensures var (a, len) := Decode(p, b).value; var x, y := b[..len], Envelope(a);
            1 + SLOT <= |x| && 1 + SLOT <= |y| && Dec(SStruct(ENVELOPE), b).Got? &&
            (VerifyHash(c, p, WithAttestations(a, attestations).1).Ok? <==>
               Tight(SStruct(ENVELOPE), b) || Collision(c, Patched(x, 1, ZERO_HASH), Patched(y, 1, ZERO_HASH)))
  {
    var (a, len) := Decode(p, b).value;
    var x, y := b[..len], Envelope(a);
    ReencodeKeepsEnvelopeExactly(p, b);
    VerifiedPrefix(c, p, b);
    RewrittenFileHash(c, p, a, attestations);
    if Patched(x, 1, ZERO_HASH) == Patched(y, 1, ZERO_HASH) {
      SameOnceZeroed(x, y, a.manifest.hash);
    }
  }

  /** The file written has a kind of one byte, and verifies exactly when its own zeroed envelope has its hash. */
  lemma RewrittenFileHash(c: Suite, p: Profile, a: Artifact, attestations: Attestations)
    requires Canonical(p, a)
    ensures SlotHolds(Envelope(a), a.manifest.hash) && KindLength(Envelope(a)) == 1
    ensures VerifyHash(c, p, WithAttestations(a, attestations).1).Ok? <==>
            a.manifest.hash == c.blake3(Patched(Envelope(a), 1, ZERO_HASH))
  {
    var rewritten := WithAttestations(a, attestations).0;
    AttestationsStayOutside(c, p, [], a, attestations);
    DecodeEncode(p, rewritten);
    EncodeSplits(rewritten);
    SplitAt(Envelope(rewritten), EncAll(TailVals(rewritten)));
    ContentHashOf(c, a);
    PatchIsReencode(a, ZERO_HASH);
    EnvelopeSlotIsPlain(a);
  }

  lemma EnvelopeSlotIsPlain(a: Artifact)
    ensures SlotHolds(Envelope(a), a.manifest.hash) && KindLength(Envelope(a)) == 1
  {
    SlotPosition(a);
    OffsetIsOne(a.manifest.kind);
    var (kind, after) := (KindVal(a.manifest.kind), a.manifest.hash + AfterSlot(a));
    assert Envelope(a) == Enc(kind) + after;
    RoundTrip(KIND, kind, after);
  }

  // ---- a verified file that is not its own encoding ----

  /** The envelope after the payload, with the span index's length written in two bytes where one would do. */
  function LooseRest(a: Artifact): bytes
    requires |a.spanIndex| < 0x80
  {
    [0x80 + |a.spanIndex|, 0] + (a.spanIndex + (Enc(AuditVal(a.audit)) + Enc(OptTextVal(a.consistency))))
  }

  function LooseEnvelope(a: Artifact): bytes
    requires |a.spanIndex| < 0x80
  {
    Enc(ManifestVal(a.manifest)) + (Enc(PayloadVal(a.payload)) + LooseRest(a))
  }

  /** The record hashed, patched and signed over its loose envelope, and its file. */
  function SealLoose(c: Suite, key: bytes, a: Artifact): (Artifact, bytes)
    requires |a.spanIndex| < 0x80
  {
    var a := WithHash(a, c.blake3(LooseEnvelope(WithHash(a, ZERO_HASH))));
    var a := a.(compilerSignature := a.compilerSignature.(signature := c.sign(key, LooseEnvelope(a))));
    (a, LooseEnvelope(a) + EncAll(TailVals(a)))
  }

  lemma LooseBlobReads(blob: bytes, tail: bytes)
    requires |blob| < 0x80
    ensures Dec(SBlob, [0x80 + |blob|, 0] + (blob + tail)) == Got(VBlob(blob), tail)
  {
    var (n, rest) := (|blob|, blob + tail);
    var b: bytes := [0x80 + n, 0] + rest;
    assert b[1..] == [0] + rest && ([0] + rest)[1..] == rest;
    assert DecInt(9, 1, b[1..]) == IntGot(0, rest);
    BlobStep(b, n, blob, tail);
  }

  /** Five fields read one after the other read as the struct of them. */
  lemma FiveFields(f: seq<Shape>, b0: bytes, x0: Val, b1: bytes, x1: Val, b2: bytes, x2: Val, b3: bytes, x3: Val, b4: bytes, x4: Val, b5: bytes)
    requires |f| == 5 && Dec(f[0], b0) == Got(x0, b1) && Dec(f[1], b1) == Got(x1, b2) && Dec(f[2], b2) == Got(x2, b3)
    requires Dec(f[3], b3) == Got(x3, b4) && Dec(f[4], b4) == Got(x4, b5)
    ensures Dec(SStruct(f), b0) == Got(VStruct([x0, x1, x2, x3, x4]), b5)
  {
    var f1, f2, f3, f4 := f[1..], f[2..], f[3..], f[4..];
    assert f1[1..] == f2 && f2[1..] == f3 && f3[1..] == f4;
    assert [x4] + [] == [x4] && [x3] + [x4] == [x3, x4] && [x2] + [x3, x4] == [x2, x3, x4];
    assert [x1] + [x2, x3, x4] == [x1, x2, x3, x4] && [x0] + [x1, x2, x3, x4] == [x0, x1, x2, x3, x4];
    FieldStep(f4, b4, x4, b5, [], b5);
    FieldStep(f3, b3, x3, b4, [x4], b5);
    FieldStep(f2, b2, x2, b3, [x3, x4], b5);
    FieldStep(f1, b1, x1, b2, [x2, x3, x4], b5);
    FieldStep(f, b0, x0, b1, [x1, x2, x3, x4], b5);
  }

  /** The third of five fields reads back from a length in two bytes as well. */
  lemma LooseFieldsRead(f: seq<Shape>, m: Val, p: Val, s: Text, u: Val, o: Val, tail: bytes)
    requires |f| == 5 && f[2] == SBlob && |s| < 0x80 && Fits(f[0], m) && Fits(f[1], p) && Fits(f[3], u) && Fits(f[4], o)
    ensures Dec(SStruct(f), Enc(m) + (Enc(p) + ([0x80 + |s|, 0] + (s + (Enc(u) + (Enc(o) + tail)))))) ==
            Got(VStruct([m, p, VBlob(s), u, o]), tail)
  {
    var four := Enc(o) + tail;
    var three := Enc(u) + four;
    var two: bytes := [0x80 + |s|, 0] + (s + three);
    var one := Enc(p) + two;
    RoundTrip(f[0], m, one);
    RoundTrip(f[1], p, two);
    LooseBlobReads(s, three);
    RoundTrip(f[3], u, four);
    RoundTrip(f[4], o, tail);
    FiveFields(f, Enc(m) + one, m, one, p, two, VBlob(s), three, u, four, o, tail);
  }

  lemma LooseReads(a: Artifact, tail: bytes)
    requires |a.spanIndex| < 0x80
    ensures Dec(SStruct(ENVELOPE), LooseEnvelope(a) + tail) == Got(VStruct(EnvelopeVals(a)), tail)
  {
    var (m, p, u, o) := (ManifestVal(a.manifest), PayloadVal(a.payload), AuditVal(a.audit), OptTextVal(a.consistency));
    LooseFieldsRead(ENVELOPE, m, p, a.spanIndex, u, o, tail);
    LooseRegroup(Enc(m), Enc(p), [0x80 + |a.spanIndex|, 0], a.spanIndex, Enc(u), Enc(o), tail);
  }

  lemma LooseRegroup(m: bytes, p: bytes, l: bytes, s: bytes, u: bytes, o: bytes, tail: bytes)
    ensures (m + (p + (l + (s + (u + o))))) + tail == m + (p + (l + (s + (u + (o + tail)))))
  {
  }

  lemma LooseSlot(a: Artifact)
    requires |a.spanIndex| < 0x80
    ensures LooseEnvelope(a) == [KindTag(a.manifest.kind)] + a.manifest.hash +
                                (Enc(ManifestTermsVal(a.manifest)) + Enc(ManifestVersionsVal(a.manifest)) +
                                 (Enc(PayloadVal(a.payload)) + LooseRest(a)))
  {
    var m := a.manifest;
    OffsetIsOne(m.kind);
    EncFour(KindVal(m.kind), VRaw(m.hash), ManifestTermsVal(m), ManifestVersionsVal(m));
    Regroup(Enc(KindVal(m.kind)), m.hash, Enc(ManifestTermsVal(m)), Enc(ManifestVersionsVal(m)), Enc(PayloadVal(a.payload)) + LooseRest(a));
  }

  lemma LooseHash(c: Suite, a: Artifact)
    requires |a.spanIndex| < 0x80
    ensures ContentHash(c, LooseEnvelope(a)) == Ok(c.blake3(LooseEnvelope(WithHash(a, ZERO_HASH))))
  {
    var kind := KindVal(a.manifest.kind);
    LooseSlot(a);
    LooseSlot(WithHash(a, ZERO_HASH));
    OffsetIsOne(a.manifest.kind);
    var after := Enc(ManifestTermsVal(a.manifest)) + Enc(ManifestVersionsVal(a.manifest)) + (Enc(PayloadVal(a.payload)) + LooseRest(a));
    assert LooseEnvelope(a) == Enc(kind) + (a.manifest.hash + after);
    RoundTrip(KIND, kind, a.manifest.hash + after);
    assert LooseEnvelope(WithHash(a, ZERO_HASH)) == Patched(LooseEnvelope(a), 1, ZERO_HASH);
  }

  lemma LooseIsLonger(a: Artifact)
    requires |a.spanIndex| < 0x80
    ensures |LooseEnvelope(a)| == |Envelope(a)| + 1
  {
    var v := EnvelopeVals(a);
    assert v == [v[0]] + ([v[1]] + [v[2], v[3], v[4]]);
    EncAllCons(v[0], [v[1]] + [v[2], v[3], v[4]]);
    EncAllCons(v[1], [v[2], v[3], v[4]]);
    EncThree(v[2], v[3], v[4]);
    assert Enc(v[2]) == [|a.spanIndex|] + a.spanIndex;
  }

  lemma LooseDecodes(p: Profile, a: Artifact)
    requires Canonical(p, a) && |a.spanIndex| < 0x80
    ensures Decode(p, LooseEnvelope(a) + EncAll(TailVals(a))) == Ok((a, |LooseEnvelope(a)|))
  {
    LoosePartsRead(a);
    RecordRoundTrip(a);
  }

  lemma LoosePartsRead(a: Artifact)
    requires |a.spanIndex| < 0x80
    ensures ReadParts(LooseEnvelope(a) + EncAll(TailVals(a))) == Ok(Parts(
              VStruct(EnvelopeVals(a)), CompilerSignatureVal(a.compilerSignature), AttestationsVal(a.attestations),
              |LooseEnvelope(a)|))
  {
    LooseReads(a, EncAll(TailVals(a)));
    TailReads(VStruct(EnvelopeVals(a)), |LooseEnvelope(a)|, a);
  }

  /**
   For every canonical record with a short span index there is a file, hashed and signed over its own bytes, that decodes
   to the record so sealed, rehashes to its address and carries a valid signature, but whose envelope is not the one that
   record encodes to.
   */
  lemma LooseFileVerifies(c: Suite, p: Profile, key: bytes, a: Artifact)
    requires Sound(c) && Canonical(p, a) && |a.spanIndex| < 0x80
    ensures var (loose, b) := SealLoose(c, key, a); var len := |LooseEnvelope(loose)|;
            Decode(p, b) == Ok((loose, len)) && VerifyHash(c, p, b) == Ok(loose.manifest.hash) && len <= |b| &&
            SignatureHolds(c, c.publicOf(key), b[..len], loose.compilerSignature) && Envelope(loose) != b[..len]
  {
    var (loose, b) := SealLoose(c, key, a);
    LooseDecodes(p, loose);
    SplitAt(LooseEnvelope(loose), EncAll(TailVals(loose)));
    SealedLoose(c, key, a);
    LooseIsLonger(loose);
  }

  lemma SealedLoose(c: Suite, key: bytes, a: Artifact)
    requires Sound(c) && |a.spanIndex| < 0x80
    ensures var loose := SealLoose(c, key, a).0;
            ContentHash(c, LooseEnvelope(loose)) == Ok(loose.manifest.hash) &&
            SignatureHolds(c, c.publicOf(key), LooseEnvelope(loose), loose.compilerSignature)
  {
    LooseHash(c, SealLoose(c, key, a).0);
  }

  lemma Unpatch(b: bytes, hash: Hash, original: Hash)
    requires 1 + SLOT <= |b| && original == b[1..1 + SLOT]
    ensures Patched(Patched(b, 1, hash), 1, original) == b
  {
  }

  /**
   Hashing the file itself, or its envelope without zeroing, never gives the address, barring an explicit collision or an
   envelope whose 32 bytes are zero already.
   */
  lemma NaiveHashFails(c: Suite, p: Profile, b: bytes)
    requires VerifyHash(c, p, b).Ok?
    ensures var h := VerifyHash(c, p, b).value; var prefix := b[..Decode(p, b).value.1];
            1 + SLOT <= |prefix| &&
            (c.blake3(b) == h <==> Collision(c, b, Patched(prefix, 1, ZERO_HASH))) &&
            (c.blake3(prefix) == h <==> prefix[1..1 + SLOT] == ZERO_HASH || Collision(c, prefix, Patched(prefix, 1, ZERO_HASH)))
  {
    VerifiedPrefix(c, p, b);
    var prefix := b[..Decode(p, b).value.1];
    Unpatch(prefix, ZERO_HASH, prefix[1..1 + SLOT]);
    if prefix[1..1 + SLOT] == ZERO_HASH {
      assert Patched(prefix, 1, ZERO_HASH) == prefix;
    }
  }
}
