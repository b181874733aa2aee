/**
 Where the content address does not bind the envelope: two whole files that verify at one address with different
 envelopes. Both write their kind over-long, so the 32 bytes zeroed before hashing are not quite their hash slot.
 */
module Overlong {
  import opened Wrappers
  import opened Wire
  import opened Crypto
  import opened Calendar
  import opened Records
  import opened Artifacts

  // ---- files with an over-long kind ----

  predicate IsOverlong(kind: bytes) {
    kind == [0x80, 0] || kind == [0x80, 0x80, 0]
  }

  /** The record's envelope, its kind written in these bytes. */
  function OverlongEnvelope(kind: bytes, a: Artifact): bytes {
    kind + (a.manifest.hash + AfterSlot(a))
  }

  function OverlongFile(kind: bytes, a: Artifact): bytes {
    OverlongEnvelope(kind, a) + EncAll(TailVals(a))
  }

  lemma FourFields(f: seq<Shape>, b0: bytes, x0: Val, b1: bytes, x1: Val, b2: bytes, x2: Val, b3: bytes, x3: Val, b4: bytes)
    requires |f| == 4 && Dec(f[0], b0) == Got(x0, b1) && Dec(f[1], b1) == Got(x1, b2)
    requires Dec(f[2], b2) == Got(x2, b3) && Dec(f[3], b3) == Got(x3, b4)
    ensures Dec(SStruct(f), b0) == Got(VStruct([x0, x1, x2, x3]), b4)
  {
    var f1, f2, f3 := f[1..], f[2..], f[3..];
    assert f1[1..] == f2 && f2[1..] == f3;
    assert [x3] + [] == [x3] && [x2] + [x3] == [x2, x3];
    assert [x1] + [x2, x3] == [x1, x2, x3] && [x0] + [x1, x2, x3] == [x0, x1, x2, x3];
    FieldStep(f3, b3, x3, b4, [], b4);
    FieldStep(f2, b2, x2, b3, [x3], b4);
    FieldStep(f1, b1, x1, b2, [x2, x3], b4);
    FieldStep(f, b0, x0, b1, [x1, x2, x3], b4);
  }

  lemma OverlongFieldsRead(f: seq<Shape>, kind: bytes, hash: Hash, t: Val, u: Val, tail: bytes)
    requires IsOverlong(kind) && |f| == 4 && f[0] == KIND && f[1] == HASH && Fits(f[2], t) && Fits(f[3], u)
    ensures Dec(SStruct(f), kind + (hash + (Enc(t) + (Enc(u) + tail)))) == Got(VStruct([VTag(0, DONE), VRaw(hash), t, u]), tail)
  {
    var three := Enc(u) + tail;
    var two := Enc(t) + three;
    OverlongKindReads(kind, hash + two);
    SplitAt(hash, two);
    RoundTrip(f[2], t, three);
    RoundTrip(f[3], u, tail);
    FourFields(f, kind + (hash + two), VTag(0, DONE), hash + two, VRaw(hash), two, t, three, u, tail);
  }

  /** A first field, then the rest as they are written. */
  lemma HeadThenRest(f: seq<Shape>, b: bytes, x: Val, rest: seq<Val>, tail: bytes)
    requires f != [] && FitsAll(f[1..], rest) && Dec(f[0], b) == Got(x, EncAll(rest) + tail)
    ensures Dec(SStruct(f), b) == Got(VStruct([x] + rest), tail)
  {
    RoundTripFields(f[1..], rest, tail);
    FieldStep(f, b, x, EncAll(rest) + tail, rest, tail);
  }

  lemma OverlongReads(kind: bytes, a: Artifact, tail: bytes)
    requires IsOverlong(kind) && a.manifest.kind.RegimePack?
    ensures Dec(SStruct(ENVELOPE), OverlongEnvelope(kind, a) + tail) == Got(VStruct(EnvelopeVals(a)), tail)
  {
    var m, vals := a.manifest, EnvelopeVals(a);
    var rest := vals[1..];
    var (t, u) := (ManifestTermsVal(m), ManifestVersionsVal(m));
    assert rest == [PayloadVal(a.payload), VBlob(a.spanIndex), AuditVal(a.audit), OptTextVal(a.consistency)];
    OverlongFieldsRead(MANIFEST, kind, m.hash, t, u, EncAll(rest) + tail);
    OverlongRegroup(kind, m.hash, Enc(t), Enc(u), EncAll(rest), tail);
    RestFits(a);
    HeadThenRest(ENVELOPE, OverlongEnvelope(kind, a) + tail, ManifestVal(m), rest, tail);
    assert [ManifestVal(m)] + rest == vals;
  }

  lemma RestFits(a: Artifact)
    ensures FitsAll(ENVELOPE[1..], EnvelopeVals(a)[1..])
  {
  }

  lemma OverlongRegroup(k: bytes, h: bytes, t: bytes, u: bytes, r: bytes, tail: bytes)
    ensures (k + (h + (t + u + r))) + tail == k + (h + (t + (u + (r + tail))))
  {
  }

  lemma OverlongDecodes(p: Profile, kind: bytes, a: Artifact)
    requires IsOverlong(kind) && a.manifest.kind.RegimePack? && Canonical(p, a)
    ensures Decode(p, OverlongFile(kind, a)) == Ok((a, |OverlongEnvelope(kind, a)|))
  {
    OverlongPartsRead(kind, a);
    RecordRoundTrip(a);
  }

  lemma OverlongPartsRead(kind: bytes, a: Artifact)
    requires IsOverlong(kind) && a.manifest.kind.RegimePack?
    ensures ReadParts(OverlongFile(kind, a)) == Ok(Parts(
              VStruct(EnvelopeVals(a)), CompilerSignatureVal(a.compilerSignature), AttestationsVal(a.attestations),
              |OverlongEnvelope(kind, a)|))
  {
    OverlongReads(kind, a, EncAll(TailVals(a)));
    TailReads(VStruct(EnvelopeVals(a)), |OverlongEnvelope(kind, a)|, a);
  }

  /** Such a file verifies when its address is the hash of its envelope with 32 bytes zeroed from offset one. */
  lemma OverlongVerifies(c: Suite, p: Profile, kind: bytes, a: Artifact)
    requires IsOverlong(kind) && a.manifest.kind.RegimePack? && Canonical(p, a)
    requires 1 + SLOT <= |OverlongEnvelope(kind, a)|
    requires a.manifest.hash == c.blake3(Patched(OverlongEnvelope(kind, a), 1, ZERO_HASH))
    ensures VerifyHash(c, p, OverlongFile(kind, a)) == Ok(a.manifest.hash)
    ensures Decode(p, OverlongFile(kind, a)) == Ok((a, |OverlongEnvelope(kind, a)|))
    ensures OverlongEnvelope(kind, a) <= OverlongFile(kind, a)
  {
    OverlongDecodes(p, kind, a);
    SplitAt(OverlongEnvelope(kind, a), EncAll(TailVals(a)));
    OverlongHash(c, kind, a.manifest.hash + AfterSlot(a));
  }

  lemma OverlongHash(c: Suite, kind: bytes, rest: bytes)
    requires IsOverlong(kind) && SLOT <= |rest|
    ensures ContentHash(c, kind + rest) == Ok(c.blake3(Patched(kind + rest, 1, ZERO_HASH)))
  {
    OverlongKindReads(kind, rest);
    OffsetIsOne(RegimePack);
  }

  // ---- two records one byte apart ----

  const FAR := Date(8225, 1, 1)
  const ZERO_VERSION := SemVer(0, 0, 0)

  /** A manifest with nothing in it but a regime, a date and a codec version. */
  function Sparse(hash: Hash, regime: Text, codec: Text): Manifest {
    Manifest(RegimePack, hash, regime, FAR, None, ZERO_VERSION, ZERO_HASH, ZERO_VERSION, codec, [], ZERO_HASH, ZERO_HASH, [])
  }

  /** The date in bytes: the year is 16450 zig-zag, as long as the longer regime below. */
  const FAR_BYTES: bytes := [0xC2, 0x80, 1] + [1, 1]

  /** From the end of the date to the codec version: no end date, a version, a hash, a version. */
  const MIDDLE: bytes := [0] + ([0, 0, 0] + (ZERO_HASH + [0, 0, 0]))

  /** After the codec version: an empty text, two hashes, an empty text. */
  const CLOSING: bytes := [0] + (ZERO_HASH + (ZERO_HASH + [0]))

  const FILL: nat := 16406

  /** The codec version of the first record: it ends as the second record's leading fields do. */
  function LongCodec(fill: bytes): Text
    requires |fill| == FILL
  {
    fill + (FAR_BYTES + (MIDDLE + [0]))
  }

  /** The regime of the second record: it opens as the first record does after its year. */
  function LongRegime(fill: bytes): Text
    requires |fill| == FILL
  {
    [1, 1] + (MIDDLE + ([0xC3, 0x80, 1] + fill))
  }

  function First(like: Artifact, hash: Hash, fill: bytes): Artifact
    requires |fill| == FILL
  {
    like.(manifest := Sparse(hash, [], LongCodec(fill)))
  }

  function Second(like: Artifact, hash: Hash, fill: bytes): Artifact
    requires |fill| == FILL
  {
    like.(manifest := Sparse(hash, LongRegime(fill), []))
  }

  lemma EncFive(v: Val, w: Val, x: Val, y: Val, z: Val)
    ensures Enc(VStruct([v, w, x, y, z])) == Enc(v) + (Enc(w) + (Enc(x) + (Enc(y) + Enc(z))))
  {
    assert [v, w, x, y, z] == [v] + [w, x, y, z];
    EncAllCons(v, [w, x, y, z]);
    EncFour(w, x, y, z);
  }

  lemma EncSix(u: Val, v: Val, w: Val, x: Val, y: Val, z: Val)
    ensures Enc(VStruct([u, v, w, x, y, z])) == Enc(u) + (Enc(v) + (Enc(w) + (Enc(x) + (Enc(y) + Enc(z)))))
  {
    assert [u, v, w, x, y, z] == [u] + [v, w, x, y, z];
    EncAllCons(u, [v, w, x, y, z]);
    EncFive(v, w, x, y, z);
  }

  lemma SmallFields()
    ensures Enc(DateVal(FAR)) == FAR_BYTES && Enc(OptDateVal(None)) == [0] && Enc(SemVerVal(ZERO_VERSION)) == [0, 0, 0]
  {
    YearAndLength();
    EncThree(VInt(16450), VRaw([1]), VRaw([1]));
    EncThree(VInt(0), VInt(0), VInt(0));
    assert ZigZag(8225) == 16450;
  }

  lemma YearAndLength()
    ensures EncInt(16450) == [0xC2, 0x80, 1] && EncInt(16451) == [0xC3, 0x80, 1]
  {
    assert EncInt(1) == [1];
    assert EncInt(128) == [0x80] + EncInt(1);
    assert EncInt(16450) == [0xC2] + EncInt(128);
    assert EncInt(16451) == [0xC3] + EncInt(128);
  }

  lemma SparseTerms(m: Manifest)
    requires m == Sparse(m.hash, m.regimeId, m.codecVersion)
    ensures Enc(ManifestTermsVal(m)) == Enc(VBlob(m.regimeId)) + (FAR_BYTES + ([0] + ([0, 0, 0] + ZERO_HASH)))
  {
    SmallFields();
    EncFive(VBlob(m.regimeId), DateVal(FAR), OptDateVal(None), SemVerVal(ZERO_VERSION), VRaw(ZERO_HASH));
  }

  lemma SparseVersions(m: Manifest)
    requires m == Sparse(m.hash, m.regimeId, m.codecVersion)
    ensures Enc(ManifestVersionsVal(m)) == [0, 0, 0] + (Enc(VBlob(m.codecVersion)) + CLOSING)
  {
    SmallFields();
    assert Enc(VBlob([])) == [0];
    EncSix(SemVerVal(ZERO_VERSION), VBlob(m.codecVersion), VBlob([]), VRaw(ZERO_HASH), VRaw(ZERO_HASH), VBlob([]));
  }

  /** What follows the slot of a sparse record, its regime and codec version picked out. */
  lemma SparseAfterSlot(a: Artifact)
    requires a.manifest == Sparse(a.manifest.hash, a.manifest.regimeId, a.manifest.codecVersion)
    ensures AfterSlot(a) == Enc(VBlob(a.manifest.regimeId)) +
                            (FAR_BYTES + (MIDDLE + (Enc(VBlob(a.manifest.codecVersion)) + (CLOSING + Beyond(a)))))
  {
    SparseTerms(a.manifest);
    SparseVersions(a.manifest);
    SparseRegroup(Enc(VBlob(a.manifest.regimeId)), FAR_BYTES, [0], [0, 0, 0], ZERO_HASH, Enc(VBlob(a.manifest.codecVersion)), CLOSING, Beyond(a));
  }

  /** The envelope after the manifest. */
  function Beyond(a: Artifact): bytes {
    EncAll([PayloadVal(a.payload), VBlob(a.spanIndex), AuditVal(a.audit), OptTextVal(a.consistency)])
  }

  lemma SparseRegroup(r: bytes, f: bytes, n: bytes, v: bytes, h: bytes, c: bytes, e: bytes, b: bytes)
    ensures (r + (f + (n + (v + h)))) + (v + (c + e)) + b == r + (f + ((n + (v + (h + v))) + (c + (e + b))))
  {
  }

  /** The first record's bytes after the slot are the second's with a zero in front. */
  lemma OneByteApart(like: Artifact, hash: Hash, fill: bytes)
    requires |fill| == FILL
    ensures AfterSlot(First(like, hash, fill)) == [0] + AfterSlot(Second(like, hash, fill))
  {
    var (a, d) := (First(like, hash, fill), Second(like, hash, fill));
    SparseAfterSlot(a);
    SparseAfterSlot(d);
    YearAndLength();
    assert Enc(VBlob([])) == [0];
    assert Enc(VBlob(LongCodec(fill))) == [0xC3, 0x80, 1] + (fill + (FAR_BYTES + (MIDDLE + [0])));
    assert Enc(VBlob(LongRegime(fill))) == [0xC2, 0x80, 1] + ([1, 1] + (MIDDLE + ([0xC3, 0x80, 1] + fill)));
    ShiftRegroup([0xC2, 0x80, 1], [1, 1], MIDDLE, [0xC3, 0x80, 1], fill, CLOSING + Beyond(a));
  }

  lemma ShiftRegroup(y: bytes, d: bytes, m: bytes, n: bytes, f: bytes, e: bytes)
    ensures [0] + ((y + d) + (m + ((n + (f + ((y + d) + (m + [0])))) + e))) ==
            [0] + ((y + (d + (m + (n + f)))) + ((y + d) + (m + ([0] + e))))
  {
  }

  // ---- one address ----

  const TWO: bytes := [0x80, 0]
  const THREE: bytes := [0x80, 0x80, 0]

  /** Both envelopes with 32 bytes zeroed from offset one, when the hash in their slots ends in two zeros. */
  function CommonZeroed(like: Artifact, fill: bytes): bytes
    requires |fill| == FILL
  {
    [0x80] + ZERO_HASH + ([0, 0] + AfterSlot(Second(like, ZERO_HASH, fill)))
  }

  function SharedAddress(c: Suite, like: Artifact, fill: bytes): Hash
    requires |fill| == FILL
  {
    c.blake3(CommonZeroed(like, fill))
  }

  lemma AfterSlotIgnoresHash(like: Artifact, hash: Hash, fill: bytes)
    requires |fill| == FILL
    ensures AfterSlot(Second(like, hash, fill)) == AfterSlot(Second(like, ZERO_HASH, fill))
  {
  }

  lemma ZeroesToCommon(like: Artifact, hash: Hash, fill: bytes)
    requires |fill| == FILL && hash[30] == 0 && hash[31] == 0
    ensures var x, y := OverlongEnvelope(TWO, First(like, hash, fill)), OverlongEnvelope(THREE, Second(like, hash, fill));
            1 + SLOT <= |x| && 1 + SLOT <= |y| && x != y &&
            Patched(x, 1, ZERO_HASH) == CommonZeroed(like, fill) && Patched(y, 1, ZERO_HASH) == CommonZeroed(like, fill)
  {
    OneByteApart(like, hash, fill);
    AfterSlotIgnoresHash(like, hash, fill);
    ZeroesTo(hash, AfterSlot(Second(like, ZERO_HASH, fill)));
  }

  lemma ZeroesTo(hash: Hash, after: bytes)
    requires hash[30] == 0 && hash[31] == 0
    ensures var x, y := TWO + (hash + ([0] + after)), THREE + (hash + after);
            x != y && Patched(x, 1, ZERO_HASH) == [0x80] + ZERO_HASH + ([0, 0] + after) &&
            Patched(y, 1, ZERO_HASH) == [0x80] + ZERO_HASH + ([0, 0] + after)
  {
    var x, y := TWO + (hash + ([0] + after)), THREE + (hash + after);
    assert x[1] != y[1];
    assert x[..1] == [0x80] && y[..1] == [0x80];
    assert x[33..] == [0, 0] + after;
    assert y[33..] == [0, 0] + after;
  }

  /** The files verify at one address; their envelopes differ, and are equal once zeroed, so that they are no collision. */
  ghost predicate OneAddress(c: Suite, p: Profile, b: bytes, d: bytes) {
    VerifyHash(c, p, b).Ok? && VerifyHash(c, p, d) == VerifyHash(c, p, b) &&
    var x, y := b[..Decode(p, b).value.1], d[..Decode(p, d).value.1];
    1 + SLOT <= |x| && 1 + SLOT <= |y| && x != y && Patched(x, 1, ZERO_HASH) == Patched(y, 1, ZERO_HASH)
  }

  /** The record's texts are in normal form, as they are for a fill of plain letters, and its payload is accepted. */
  predicate Accepts(p: Profile, like: Artifact, fill: bytes)
    requires |fill| == FILL
  {
    p.nfc([]) && p.nfc(LongCodec(fill)) && p.nfc(LongRegime(fill)) && like.payload.Rules? && ValidPayload(p, like.payload)
  }

  lemma BothCanonical(p: Profile, like: Artifact, hash: Hash, fill: bytes)
    requires |fill| == FILL && Accepts(p, like, fill)
    ensures Canonical(p, First(like, hash, fill)) && Canonical(p, Second(like, hash, fill))
  {
  }

  /**
   Two whole files that decode, verify at one address and have different envelopes, for every profile that accepts the
   texts and every suite under which the address happens to end in two zero bytes.
   */
  lemma OneAddressTwoEnvelopes(c: Suite, p: Profile, like: Artifact, fill: bytes)
    requires |fill| == FILL && Accepts(p, like, fill)
    requires SharedAddress(c, like, fill)[30] == 0 && SharedAddress(c, like, fill)[31] == 0
    ensures var h := SharedAddress(c, like, fill);
            OneAddress(c, p, OverlongFile(TWO, First(like, h, fill)), OverlongFile(THREE, Second(like, h, fill)))
  {
    var h := SharedAddress(c, like, fill);
    BothCanonical(p, like, h, fill);
    ZeroesToCommon(like, h, fill);
    OverlongVerifies(c, p, TWO, First(like, h, fill));
    OverlongVerifies(c, p, THREE, Second(like, h, fill));
  }

  function AlwaysZero(b: bytes): Hash { ZERO_HASH }

  function OneSignature(k: bytes, m: bytes): Sig { ZERO_SIG }

  predicate AnySignature(k: Hash, m: bytes, s: Sig) { true }

  /** The suite that hashes everything to zero. */
  function ConstantSuite(): Suite {
    Suite(AlwaysZero, OneSignature, AnySignature, AlwaysZero)
  }

  lemma ConstantEndsInZeros(like: Artifact, fill: bytes)
    requires |fill| == FILL
    ensures SharedAddress(ConstantSuite(), like, fill) == ZERO_HASH
  {
  }

  lemma ConstantIsSound()
    ensures Sound(ConstantSuite())
  {
  }

  lemma TwoFiles(c: Suite, p: Profile, like: Artifact, h: Hash, fill: bytes) returns (b: bytes, d: bytes)
    requires |fill| == FILL && Accepts(p, like, fill)
    requires h == SharedAddress(c, like, fill) && h[30] == 0 && h[31] == 0
    ensures OneAddress(c, p, b, d)
  {
    b, d := OverlongFile(TWO, First(like, h, fill)), OverlongFile(THREE, Second(like, h, fill));
    OneAddressTwoEnvelopes(c, p, like, fill);
  }

  /** Such a suite exists, one whose signatures verify at that. */
  lemma AddressNeedNotBind(p: Profile, like: Artifact, fill: bytes)
    requires |fill| == FILL && Accepts(p, like, fill)
    ensures exists c, b, d :: Sound(c) && OneAddress(c, p, b, d)
  {
    var c := ConstantSuite();
    ConstantEndsInZeros(like, fill);
    ConstantIsSound();
    var b, d := TwoFiles(c, p, like, ZERO_HASH, fill);
    assert Sound(c) && OneAddress(c, p, b, d);
  }
}
