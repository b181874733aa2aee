/** Which rejection is reported when: for one attestation, for a set, and for a whole file. */
module Verdicts {
  import opened Wrappers
  import opened Wire
  import opened Crypto
  import opened Calendar
  import opened Records
  import opened Attestations
  import opened Verification
  import Artifacts

  // ---- the stamped message ----

  lemma {:induction false} LittleEndianBinds(m: nat, n: nat, size: nat)
    requires LittleEndian(m, size) == LittleEndian(n, size) && m < Power(size) && n < Power(size)
    ensures m == n
  {
    if size > 0 {
      var (a, b) := (LittleEndian(m, size), LittleEndian(n, size));
      assert a[0] == b[0] && a[1..] == b[1..];
      LittleEndianBinds(m / 0x100, n / 0x100, size - 1);
    }
  }

  function Power(size: nat): nat {
    if size == 0 then 1 else 0x100 * Power(size - 1)
  }

  /** A stamp is over one hash and one time. */
  lemma StampBinds(g: Hash, h: Hash, s: u64, t: u64)
    requires MockMessage(g, s) == MockMessage(h, t)
    ensures g == h && s == t
  {
    var (a, b) := (MockMessage(g, s), MockMessage(h, t));
    assert a[1..33] == g && b[1..33] == h;
    assert a[33..] == LittleEndian(s, 8) && b[33..] == LittleEndian(t, 8);
    EightBytes();
    LittleEndianBinds(s, t, 8);
  }

  lemma EightBytes()
    ensures Power(8) == 0x1_0000_0000_0000_0000
  {
    assert Power(4) == 0x1_0000_0000;
    assert Power(8) == 0x1_0000_0000 * Power(4);
  }

  // ---- one attestation ----

  /** Known key, and its signature. */
  predicate Signed(k: Checker, a: Attestation) {
    var entry := Lookup(k.directory, a.keyId);
    entry.Some? && k.suite.verify(entry.value.publicKey, PayloadPrefix(a), a.signature)
  }

  predicate Stamped(k: Checker, a: Attestation) {
    VerifiesAsMock(k.suite, k.tsaPublicKey, a.timestamp, a.artifactHash)
  }

  /** The rejections about the signature and the stamp come first. */
  lemma IntegrityRejections(k: Checker, a: Attestation)
    ensures Check(k, a) == Some(KeyUnknown) <==> forall e :: e in k.directory ==> e.keyId != a.keyId
    ensures Check(k, a) == Some(AttestationSignatureInvalid) <==> (exists e :: e in k.directory && e.keyId == a.keyId) && !Signed(k, a)
    ensures Check(k, a) == Some(TimestampClassMismatch) <==> Signed(k, a) && (Stamped(k, a) <==> !a.timestamp.class_.Mock?)
    ensures forall class_ :: Check(k, a) == Some(TsaUnsupported(class_)) <==>
              Signed(k, a) && !Stamped(k, a) && !a.timestamp.class_.Mock? && class_ == a.timestamp.class_
    ensures Check(k, a) == Some(MockTsaNonLocal) <==>
              Signed(k, a) && Stamped(k, a) && a.timestamp.class_.Mock? && k.context.environment != LOCAL
  {
    var entry := Lookup(k.directory, a.keyId);
    if entry.Some? {
      IntegrityIs(k, entry.value, a);
      CheckOpens(k, entry.value, a);
    }
  }

  predicate AboutIntegrity(r: Rejection) {
    r.AttestationSignatureInvalid? || r.TimestampClassMismatch? || r.TsaUnsupported? || r.MockTsaNonLocal?
  }

  lemma IntegrityIs(k: Checker, entry: KeyEntry, a: Attestation)
    requires Lookup(k.directory, a.keyId) == Some(entry)
    ensures CheckIntegrity(k, entry, a) ==
            if !Signed(k, a) then Some(AttestationSignatureInvalid)
            else if !Stamped(k, a) && !a.timestamp.class_.Mock? then Some(TsaUnsupported(a.timestamp.class_))
            else if !Stamped(k, a) || !a.timestamp.class_.Mock? then Some(TimestampClassMismatch)
            else if k.context.environment != LOCAL then Some(MockTsaNonLocal)
            else None
  {
  }

  lemma CheckOpens(k: Checker, entry: KeyEntry, a: Attestation)
    requires Lookup(k.directory, a.keyId) == Some(entry)
    ensures CheckIntegrity(k, entry, a).Some? ==> Check(k, a) == CheckIntegrity(k, entry, a)
    ensures CheckIntegrity(k, entry, a).None? ==> Check(k, a) == if CheckKey(k, entry, a).Some? then CheckKey(k, entry, a) else CheckBinding(k, a)
    ensures CheckKey(k, entry, a).Some? ==> AboutKey(CheckKey(k, entry, a).value)
    ensures CheckBinding(k, a).Some? ==> AboutBinding(CheckBinding(k, a).value)
  {
  }

  predicate Sound(k: Checker, a: Attestation) {
    Signed(k, a) && Stamped(k, a) && a.timestamp.class_.Mock? && k.context.environment == LOCAL
  }

  /** Then those about the key: its status, its window, and what it may sign. */
  lemma KeyRejections(k: Checker, a: Attestation)
    ensures Check(k, a) == Some(KeyRevoked) <==> Sound(k, a) && Lookup(k.directory, a.keyId).value.status.Withdrawn?
    ensures Check(k, a) == Some(KeyExpired) <==>
              Sound(k, a) && var e := Lookup(k.directory, a.keyId).value;
              e.status.Expired? || (e.status.Active? && (k.context.now < e.validFrom || e.validTo <= k.context.now))
    ensures forall t :: Check(k, a) == Some(KeyUnauthorizedForType(t)) <==>
              Sound(k, a) && Current(k, a) && t == a.claim &&
              var e := Lookup(k.directory, a.keyId).value; a.signerRole !in e.roles || a.claim !in e.types
  {
    if Sound(k, a) {
      KeyReached(k, a);
    } else {
      UnsoundRejected(k, a);
    }
  }

  predicate Current(k: Checker, a: Attestation)
    requires Sound(k, a)
  {
    var e := Lookup(k.directory, a.keyId).value;
    e.status.Active? && e.validFrom <= k.context.now < e.validTo
  }

  predicate Authorized(k: Checker, a: Attestation) {
    Sound(k, a) && Current(k, a) &&
    var e := Lookup(k.directory, a.keyId).value; a.signerRole in e.roles && a.claim in e.types
  }

  predicate About(k: Checker, a: Attestation) {
    a.artifactHash == k.artifactHash && a.regimeId == k.manifest.regimeId && a.compilerVersion == k.manifest.compilerVersion
  }

  predicate Supported(k: Checker, a: Attestation) {
    a.policyVersion in k.context.supportedVersions && a.irSchemaVersion == k.manifest.irSchemaVersion
  }

  predicate Lapsed(k: Checker, a: Attestation) {
    a.expiration.Some? && Calendar.Expired(k.context.now, a.expiration.value)
  }

  /** And last those about what is attested: the artifact, the versions, the expiry, the legal source. */
  lemma BindingRejections(k: Checker, a: Attestation)
    ensures forall x, y :: Check(k, a) == Some(NotBoundToArtifact(x, y)) <==>
              Authorized(k, a) && !About(k, a) && x == k.artifactHash && y == a.artifactHash
    ensures Check(k, a) == Some(PolicyVersionUnsupported) <==> Authorized(k, a) && About(k, a) && !Supported(k, a)
    ensures Check(k, a) == Some(AttestationExpired) <==> Authorized(k, a) && About(k, a) && Supported(k, a) && Lapsed(k, a)
    ensures Check(k, a) == Some(LegalSourceHashChanged) <==>
              Authorized(k, a) && About(k, a) && Supported(k, a) && !Lapsed(k, a) &&
              k.context.legalSource.Some? && k.context.legalSource.value != a.legalSourceHash
  {
    BindingReached(k, a);
  }

  predicate AboutBinding(r: Rejection) {
    r.NotBoundToArtifact? || r.PolicyVersionUnsupported? || r.AttestationExpired? || r.LegalSourceHashChanged?
  }

  lemma BindingReached(k: Checker, a: Attestation)
    ensures if Authorized(k, a) then Check(k, a) == CheckBinding(k, a) else Check(k, a).Some? && !AboutBinding(Check(k, a).value)
  {
    if Sound(k, a) {
      KeyReached(k, a);
    } else {
      UnsoundRejected(k, a);
    }
  }

  predicate AboutKey(r: Rejection) {
    r.KeyExpired? || r.KeyRevoked? || r.KeyUnauthorizedForType?
  }

  lemma KeyReached(k: Checker, a: Attestation)
    requires Sound(k, a)
    ensures var authority := CheckKey(k, Lookup(k.directory, a.keyId).value, a);
            Check(k, a) == if authority.Some? then authority else CheckBinding(k, a)
  {
    IntegrityIs(k, Lookup(k.directory, a.keyId).value, a);
    CheckOpens(k, Lookup(k.directory, a.keyId).value, a);
  }

  lemma UnsoundRejected(k: Checker, a: Attestation)
    requires !Sound(k, a)
    ensures Check(k, a).Some? && !AboutKey(Check(k, a).value) && !AboutBinding(Check(k, a).value)
  {
    var entry := Lookup(k.directory, a.keyId);
    if entry.Some? {
      IntegrityIs(k, entry.value, a);
      CheckOpens(k, entry.value, a);
    }
  }

  // ---- counting ----

  ghost function Positions(check: AttestationCheck, t: AttestationType, atts: seq<Attestation>): set<nat> {
    set i: nat | i < |atts| && check(atts[i]).None? && atts[i].claim == t
  }

  /** What is counted of a claim: the valid attestations of it. */
  lemma {:induction false} CountIsPositions(check: AttestationCheck, t: AttestationType, atts: seq<Attestation>)
    ensures Count(t, ValidOnes(check, atts)) == |Positions(check, t, atts)|
  {
    if atts != [] {
      var (init, last) := (atts[..|atts| - 1], atts[|atts| - 1]);
      CountIsPositions(check, t, init);
      CountMore(check, t, init, last);
      PositionsMore(check, t, init, last);
      assert atts == init + [last];
    } else {
      assert Positions(check, t, atts) == {};
    }
  }

  lemma PositionsMore(check: AttestationCheck, t: AttestationType, init: seq<Attestation>, last: Attestation)
    ensures |Positions(check, t, init + [last])| ==
            |Positions(check, t, init)| + if check(last).None? && last.claim == t then 1 else 0
  {
    var more := if check(last).None? && last.claim == t then {|init|} else {};
    assert Positions(check, t, init + [last]) == Positions(check, t, init) + more;
  }

  lemma CountMore(check: AttestationCheck, t: AttestationType, init: seq<Attestation>, last: Attestation)
    ensures Count(t, ValidOnes(check, init + [last])) ==
            Count(t, ValidOnes(check, init)) + if check(last).None? && last.claim == t then 1 else 0
  {
    var valid := ValidOnes(check, init);
    assert (init + [last])[..|init|] == init;
    assert (valid + [last])[..|valid|] == valid;
    assert valid + [] == valid;
  }

  /** The minimum a policy sets for a claim: its first entry for it, and never less than one. */
  predicate Minimum(policy: Policy, t: AttestationType, n: nat) {
    if exists i :: 0 <= i < |policy.minimums| && policy.minimums[i].0 == t then
      exists i | 0 <= i < |policy.minimums| ::
        policy.minimums[i].0 == t && (forall j | 0 <= j < i :: policy.minimums[j].0 != t) &&
        n == if policy.minimums[i].1 > 1 then policy.minimums[i].1 else 1
    else n == 1
  }

  lemma RequiredIsMinimum(policy: Policy, t: AttestationType)
    ensures Minimum(policy, t, Required(policy, t))
  {
    FirstMinimumIs(policy.minimums, t);
  }

  lemma {:induction false} FirstMinimumIs(minimums: seq<(AttestationType, nat)>, t: AttestationType)
    ensures var m := FirstMinimum(minimums, t);
            if m.None? then forall i | 0 <= i < |minimums| :: minimums[i].0 != t
            else exists i | 0 <= i < |minimums| :: minimums[i] == (t, m.value) && forall j | 0 <= j < i :: minimums[j].0 != t
  {
    if minimums != [] && minimums[0].0 != t {
      FirstMinimumIs(minimums[1..], t);
      var m := FirstMinimum(minimums[1..], t);
      if m.Some? {
        var i :| 0 <= i < |minimums| - 1 && minimums[1..][i] == (t, m.value) && forall j | 0 <= j < i :: minimums[1..][j].0 != t;
        assert minimums[i + 1] == (t, m.value);
        assert forall j | 0 < j < i + 1 :: minimums[j] == minimums[1..][j - 1];
      }
    } else if minimums != [] {
      assert minimums[0] == (t, minimums[0].1);
    }
  }

  lemma MinimumIsOne(policy: Policy, t: AttestationType, m: nat, n: nat)
    requires Minimum(policy, t, m) && Minimum(policy, t, n)
    ensures m == n
  {
  }

  // ---- the report on a set ----

  lemma {:induction false} IndividualHas(check: AttestationCheck, atts: seq<Attestation>, x: Rejection)
    ensures x in Individual(check, atts) <==> exists a :: a in atts && check(a) == Some(x)
  {
    if atts != [] {
      var (init, last) := (atts[..|atts| - 1], atts[|atts| - 1]);
      IndividualHas(check, init, x);
      assert atts == init + [last];
    }
  }

  lemma {:induction false} MissingHas(policy: Policy, required: seq<AttestationType>, valid: seq<Attestation>, x: Rejection)
    ensures x in Missing(policy, required, valid) <==>
            exists t :: t in required && Count(t, valid) < Required(policy, t) &&
                        x == RequiredTypeMissing(t, Required(policy, t), Count(t, valid))
  {
    if required != [] {
      var (init, last) := (required[..|required| - 1], required[|required| - 1]);
      MissingHas(policy, init, valid, x);
      assert required == init + [last];
    }
  }

  lemma {:induction false} UncoveredHas(types: seq<AttestationType>, hash: Hash, valid: seq<Attestation>, x: Rejection)
    ensures x in Uncovered(types, hash, valid) <==> exists t :: t in types && !CarriesOver(t, hash, valid) && x == CoAttestationAbsent(t)
  {
    if types != [] {
      var (init, last) := (types[..|types| - 1], types[|types| - 1]);
      UncoveredHas(init, hash, valid, x);
      assert types == init + [last];
    }
  }

  lemma {:induction false} ValidOnesHas(check: AttestationCheck, atts: seq<Attestation>, a: Attestation)
    ensures a in ValidOnes(check, atts) <==> a in atts && check(a).None?
  {
    if atts != [] {
      var (init, last) := (atts[..|atts| - 1], atts[|atts| - 1]);
      ValidOnesHas(check, init, a);
      assert atts == init + [last];
    }
  }

  lemma CoveredExactly(check: AttestationCheck, t: AttestationType, hash: Hash, atts: seq<Attestation>)
    requires BindsHash(check, hash)
    ensures CarriesOver(t, hash, ValidOnes(check, atts)) <==> Positions(check, t, atts) != {}
    ensures Carries(t, ValidOnes(check, atts)) <==> Positions(check, t, atts) != {}
  {
    var valid := ValidOnes(check, atts);
    if a :| a in valid && a.claim == t {
      ValidOnesHas(check, atts, a);
      var i :| 0 <= i < |atts| && atts[i] == a;
      assert i in Positions(check, t, atts);
    }
    if i :| i in Positions(check, t, atts) {
      ValidOnesHas(check, atts, atts[i]);
      assert atts[i] in valid && atts[i].artifactHash == hash;
    }
  }

  /** What an approval must come with: the source, and for anything but an intent spec the scenarios. */
  predicate Companion(kind: ArtifactKind, t: AttestationType) {
    t == SourceFidelity || (t == ScenarioCoverage && kind != ArtifactKind.IntentSpec)
  }

  lemma CompanionsAre(kind: ArtifactKind)
    ensures forall t :: t in CoTypes(kind) <==> Companion(kind, t)
  {
    assert SourceFidelity in CoTypes(kind) && (kind != ArtifactKind.IntentSpec ==> ScenarioCoverage in CoTypes(kind));
  }

  ghost predicate ReportedAlone(k: Checker, atts: seq<Attestation>, x: Rejection) {
    exists a :: a in atts && Check(k, a) == Some(x)
  }

  ghost predicate ReportedMissing(k: Checker, policy: Policy, atts: seq<Attestation>, x: Rejection) {
    exists t, n: nat :: t in policy.required && Minimum(policy, t, n) && |Positions(Checks(k), t, atts)| < n &&
                        x == RequiredTypeMissing(t, n, |Positions(Checks(k), t, atts)|)
  }

  ghost predicate ReportedAbsent(k: Checker, atts: seq<Attestation>, x: Rejection) {
    Positions(Checks(k), PublicationApproval, atts) != {} &&
    exists t :: Companion(k.manifest.kind, t) && Positions(Checks(k), t, atts) == {} && x == CoAttestationAbsent(t)
  }

  /** The report on a set: each member's own rejection, each required claim too rare with both counts, each companion an approval lacks. */
  lemma ReportedExactly(k: Checker, policy: Policy, atts: seq<Attestation>, x: Rejection)
    ensures x in SetRejections(Checks(k), k.manifest.kind, policy, atts) <==>
            ReportedAlone(k, atts, x) || ReportedMissing(k, policy, atts, x) || ReportedAbsent(k, atts, x)
  {
    var check := Checks(k);
    IndividualHas(check, atts, x);
    assert ReportedAlone(k, atts, x) <==> exists a :: a in atts && check(a) == Some(x);
    MissingExactly(k, policy, atts, x);
    AbsentExactly(k, atts, x);
  }

  lemma MissingExactly(k: Checker, policy: Policy, atts: seq<Attestation>, x: Rejection)
    ensures x in Missing(policy, policy.required, ValidOnes(Checks(k), atts)) <==> ReportedMissing(k, policy, atts, x)
  {
    var (check, valid) := (Checks(k), ValidOnes(Checks(k), atts));
    MissingHas(policy, policy.required, valid, x);
    forall t | t in policy.required
      ensures Minimum(policy, t, Required(policy, t)) && Count(t, valid) == |Positions(check, t, atts)|
      ensures forall n: nat :: Minimum(policy, t, n) ==> n == Required(policy, t)
    {
      RequiredIsMinimum(policy, t);
      CountIsPositions(check, t, atts);
      forall n: nat | Minimum(policy, t, n)
        ensures n == Required(policy, t)
      {
        MinimumIsOne(policy, t, n, Required(policy, t));
      }
    }
  }

  lemma AbsentExactly(k: Checker, atts: seq<Attestation>, x: Rejection)
    ensures x in Absent(k.manifest.kind, ValidOnes(Checks(k), atts)) <==> ReportedAbsent(k, atts, x)
  {
    var (check, valid) := (Checks(k), ValidOnes(Checks(k), atts));
    CheckBindsHash(k);
    forall t: AttestationType
      ensures CarriesOver(t, k.artifactHash, valid) <==> Positions(check, t, atts) != {}
      ensures Carries(t, valid) <==> Positions(check, t, atts) != {}
    {
      CoveredExactly(check, t, k.artifactHash, atts);
    }
    CompanionsAre(k.manifest.kind);
    var approval := FirstApproval(valid);
    if approval.Some? {
      ValidOnesHas(check, atts, approval.value);
      UncoveredHas(CoTypes(k.manifest.kind), k.artifactHash, valid, x);
    }
  }

  // ---- the verdict on a file ----

  /** The file decodes and its own address holds. */
  predicate Addressed(t: Trust, kew: bytes) {
    Artifacts.VerifyHash(t.suite, t.profile, kew).Ok?
  }

  /** Some known key of the name on the compiler signature made it, over the envelope. */
  predicate CompilerSigned(t: Trust, kew: bytes)
    requires Addressed(t, kew)
  {
    var (a, len) := Artifacts.Decode(t.profile, kew).value;
    exists i | 0 <= i < |t.directory| ::
      t.directory[i].keyId == a.compilerSignature.keyId &&
      (forall j | 0 <= j < i :: t.directory[j].keyId != a.compilerSignature.keyId) &&
      t.suite.verify(t.directory[i].publicKey, kew[..len], a.compilerSignature.signature)
  }

  lemma {:induction false} LookupIsFirst(directory: seq<KeyEntry>, keyId: Text)
    ensures Lookup(directory, keyId).Some? ==>
            exists i | 0 <= i < |directory| :: directory[i] == Lookup(directory, keyId).value && forall j | 0 <= j < i :: directory[j].keyId != keyId
  {
    if directory != [] && directory[0].keyId != keyId {
      LookupIsFirst(directory[1..], keyId);
      if Lookup(directory, keyId).Some? {
        var i :| 0 <= i < |directory| - 1 && directory[1..][i] == Lookup(directory, keyId).value &&
                 forall j | 0 <= j < i :: directory[1..][j].keyId != keyId;
        assert directory[i + 1] == Lookup(directory, keyId).value;
        assert forall j | 0 < j < i + 1 :: directory[j] == directory[1..][j - 1];
      }
    }
  }

  lemma CompilerSignedExactly(t: Trust, kew: bytes)
    requires Addressed(t, kew)
    ensures var (a, len) := Artifacts.Decode(t.profile, kew).value;
            CompilerKeyAccepts(t, kew[..len], a.compilerSignature) <==> CompilerSigned(t, kew)
  {
    var (a, len) := Artifacts.Decode(t.profile, kew).value;
    LookupIsFirst(t.directory, a.compilerSignature.keyId);
    if CompilerSigned(t, kew) {
      var i :| 0 <= i < |t.directory| && t.directory[i].keyId == a.compilerSignature.keyId &&
               (forall j | 0 <= j < i :: t.directory[j].keyId != a.compilerSignature.keyId) &&
               t.suite.verify(t.directory[i].publicKey, kew[..len], a.compilerSignature.signature);
      assert t.directory[i] in t.directory;
    }
  }

  /** The rejections of the file's attestations, checked against its own manifest. */
  function Rejections(t: Trust, context: Context, policy: Policy, kew: bytes): seq<Rejection>
    requires Addressed(t, kew)
  {
    var a := Artifacts.Decode(t.profile, kew).value.0;
    SetRejections(
      Checks(Checker(t.suite, t.tsaPublicKey, a.manifest.hash, a.manifest, t.directory, context)), a.manifest.kind, policy, a.attestations)
  }

  predicate Acceptable(t: Trust, context: Context, policy: Policy, kew: bytes) {
    Addressed(t, kew) && CompilerSigned(t, kew) && Rejections(t, context, policy, kew) == []
  }

  /** Each reason a file is turned down for, and exactly when it is the one given. */
  lemma ReasonExactly(t: Trust, context: Context, policy: Policy, kew: bytes, evidence: Evidence)
    ensures var r := Verify(t, context, policy, kew, evidence); var decoded := Artifacts.Decode(t.profile, kew);
            (forall e :: r == Some(DecodeFailed(e)) <==> decoded == Err(e)) &&
            (r == Some(HashMismatch) <==> decoded.Ok? && !Addressed(t, kew)) &&
            (r == Some(CompilerSignatureInvalid) <==> Addressed(t, kew) && !CompilerSigned(t, kew)) &&
            (forall rejections :: r == Some(AttestationsRejected(rejections)) <==>
               Addressed(t, kew) && CompilerSigned(t, kew) && rejections == Rejections(t, context, policy, kew) && rejections != []) &&
            (forall status :: r == Some(NotPublished(status)) <==>
               Acceptable(t, context, policy, kew) && status == evidence.status && status != Authoritative) &&
            (forall x, y :: r == Some(StaleEventHead(x, y)) <==>
               Acceptable(t, context, policy, kew) && evidence.status == Authoritative &&
               x == evidence.eventHead && evidence.liveHead == Some(y) && x != y)
  {
    if Addressed(t, kew) {
      CompilerSignedExactly(t, kew);
      VerdictIs(t, context, policy, kew, evidence);
    }
  }

  lemma VerdictIs(t: Trust, context: Context, policy: Policy, kew: bytes, evidence: Evidence)
    requires Addressed(t, kew)
    ensures var (a, len) := Artifacts.Decode(t.profile, kew).value; var rejections := Rejections(t, context, policy, kew);
            Verify(t, context, policy, kew, evidence) ==
            if !CompilerKeyAccepts(t, kew[..len], a.compilerSignature) then Some(CompilerSignatureInvalid)
            else if rejections != [] then Some(AttestationsRejected(rejections))
            else if evidence.status != Authoritative then Some(NotPublished(evidence.status))
            else if evidence.liveHead.Some? && evidence.liveHead.value != evidence.eventHead
            then Some(StaleEventHead(evidence.eventHead, evidence.liveHead.value))
            else None
  {
  }
}
