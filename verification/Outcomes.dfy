/**
 What each command leaves when it succeeds, field by field, and how each can fail: the whole registry after the
 command, in terms of the registry before it and the command's own arguments.
 */
module Outcomes {
  import opened Wrappers
  import opened Wire
  import opened Crypto
  import opened Records
  import opened Attestations
  import opened Events
  import opened Registry
  import opened Lifecycle
  import opened Runs
  import opened Reach
  import Artifacts

  // ---- one event ----

  /** The entry that follows a log: chained, numbered, stamped at that time, and signed by the registry root. */
  predicate Entry(w: World, h: Hash, log: seq<Event>, e: Event, to: LifecycleState, kind: Text, authority: Text, now: u64) {
    && e.artifactHash == h && e.seqNo == |log| && e.priorState == StateOf(log) && e.newState == to && e.kind == kind
    && e.authorityKeyId == authority && e.authorityRole == SignerRole.Registry
    && e.prevHash == (if log == [] then None else Some(ChainHash(w.suite, log[|log| - 1])))
    && Stamped(w, e.timestamp, h, now)
    && Events.SignatureHolds(w.suite, w.suite.publicOf(w.rootKey), e)
  }

  /** A local timestamp over the address, claiming that time. */
  predicate Stamped(w: World, t: TimestampToken, h: Hash, now: u64) {
    t.class_ == Mock && t.claimedTime == now && VerifiesAsMock(w.suite, w.suite.publicOf(w.tsaKey), t, h)
  }

  lemma StampIs(w: World, h: Hash, now: u64)
    requires Honest(w)
    ensures Stamped(w, Stamp(w.suite, w.tsaKey, h, now), h, now)
  {
    var message := MockMessage(h, now);
    assert w.suite.verify(w.suite.publicOf(w.tsaKey), message, w.suite.sign(w.tsaKey, message));
  }

  lemma NextStamp(w: World, prior: Event, to: LifecycleState, kind: Text, authority: Text, stamped: Hash, now: u64)
    requires NextEvent(w, prior, to, kind, authority, stamped, now).Ok?
    ensures var e := NextEvent(w, prior, to, kind, authority, stamped, now).value;
            e.kind == kind && e.authorityKeyId == authority && e.authorityRole == SignerRole.Registry &&
            e.timestamp == Stamp(w.suite, w.tsaKey, stamped, now)
  {
  }

  lemma AdvanceStamp(w: World, s: Reg, h: Hash, to: LifecycleState, kind: Text, now: u64, t: Reg, e: Event)
    requires Advance(w, s, h, to, kind, now) == Ok((t, e))
    ensures e.kind == kind && e.authorityKeyId == ROOT_KEY_ID && e.authorityRole == SignerRole.Registry &&
            e.timestamp == Stamp(w.suite, w.tsaKey, h, now)
  {
    NextStamp(w, Head(w, s, h).value, to, kind, ROOT_KEY_ID, h, now);
  }

  /** An event that keeps a log good, stamped by the command, is such an entry. */
  lemma FollowsIsEntry(w: World, h: Hash, log: seq<Event>, e: Event, to: LifecycleState, kind: Text, authority: Text, now: u64)
    requires Honest(w) && Follows(RegistryChain(w), h, log, e) && e.newState == to && e.kind == kind && e.authorityKeyId == authority
    requires e.authorityRole == SignerRole.Registry && e.timestamp == Stamp(w.suite, w.tsaKey, h, now)
    ensures Entry(w, h, log, e, to, kind, authority, now)
  {
    StampIs(w, h, now);
  }

  function Logged(s: Reg, h: Hash, e: Event): Reg {
    s.(logs := s.logs[h := Log(s, h) + [e]])
  }

  lemma RoomForward(l: Laws, s: Reg, h: Hash, from: LifecycleState, to: LifecycleState)
    requires Good(l, s) && StateOf(Log(s, h)) == Some(from) && Edge(from, to) && Rank(from) < 4
    ensures Log(s, h) != [] && |Log(s, h)| < U32_COUNT && Allowed(StateOf(Log(s, h)).value, to, EventKind(to))
  {
    ForwardRoom(l, s, h);
  }

  /** The transition every command but compiling makes. */
  lemma AdvanceLeaves(w: World, l: Laws, s: Reg, h: Hash, to: LifecycleState, kind: Text, now: u64) returns (e: Event)
    requires Honest(w) && l.chain == RegistryChain(w) && Good(l, s) && Log(s, h) != [] && |Log(s, h)| < U32_COUNT
    requires Allowed(StateOf(Log(s, h)).value, to, kind) && (to == MlChecked ==> h in s.consistency)
    ensures Advance(w, s, h, to, kind, now) == Ok((Logged(s, h, e), e)) && Entry(w, h, Log(s, h), e, to, kind, ROOT_KEY_ID, now)
  {
    var t;
    t, e := AdvanceSafe(w, l, s, h, to, kind, now);
    AdvanceStamp(w, s, h, to, kind, now, t, e);
    FollowsIsEntry(w, h, Log(s, h), e, to, kind, ROOT_KEY_ID, now);
  }

  /** A forward transition always finds room. */
  lemma AdvanceFrom(w: World, l: Laws, s: Reg, h: Hash, from: LifecycleState, to: LifecycleState, now: u64) returns (e: Event)
    requires Honest(w) && l.chain == RegistryChain(w) && Good(l, s) && StateOf(Log(s, h)) == Some(from)
    requires Edge(from, to) && Rank(from) < 4 && (to == MlChecked ==> h in s.consistency)
    ensures Advance(w, s, h, to, EventKind(to), now) == Ok((Logged(s, h, e), e))
    ensures Entry(w, h, Log(s, h), e, to, EventKind(to), ROOT_KEY_ID, now)
  {
    RoomForward(l, s, h, from, to);
    e := AdvanceLeaves(w, l, s, h, to, EventKind(to), now);
  }

  lemma ForwardEdges()
    ensures Edge(StructurallyVerified, MlChecked) && Edge(MlChecked, ExpertAttested) && Edge(ExpertAttested, Published)
    ensures Rank(StructurallyVerified) < 4 && Rank(MlChecked) < 4 && Rank(ExpertAttested) < 4
  {
  }

  lemma FinalIs(s: Reg, t: Trace)
    ensures Final(s, t) == if t.states == [] then s else t.states[|t.states| - 1]
  {
  }

  // ---- checking, deprecating ----

  lemma MlCheckLeaves(w: World, s: Reg, c: Command) returns (e: Event)
    requires Honest(w) && Good(LawsOf(w), s) && c.MlCheck? && TraceOf(w, s, c).result.Ok?
    ensures Entry(w, c.h, Log(s, c.h), e, MlChecked, Ascii("ml_checked"), ROOT_KEY_ID, c.now)
    ensures Exec(w, s, Attempt(c, None)) ==
            s.(logs := s.logs[c.h := Log(s, c.h) + [e]], consistency := s.consistency[c.h := DevStandIn(c.now)])
  {
    var l := LawsOf(w);
    var writes := MlCheckSafe(w, l, s, c.h, c.now);
    StandingIs(w, l, s, c.h);
    var s1 := Applied(s, PutBlock(c.h, DevStandIn(c.now)));
    BlockStep(l, s, c.h, DevStandIn(c.now), s1);
    ForwardEdges();
    e := AdvanceFrom(w, l, s1, c.h, StructurallyVerified, MlChecked, c.now);
    MlCheckTraceIs(w, s, c.h, c.now, s1, Logged(s1, c.h, e), e);
    FinalIs(s, TraceOf(w, s, c));
  }

  lemma DeprecateLeaves(w: World, s: Reg, c: Command) returns (e: Event)
    requires Honest(w) && Good(LawsOf(w), s) && c.Deprecate? && TraceOf(w, s, c).result.Ok?
    ensures Entry(w, c.h, Log(s, c.h), e, Deprecated, Ascii("deprecated"), ROOT_KEY_ID, c.now)
    ensures Exec(w, s, Attempt(c, None)) == s.(logs := s.logs[c.h := Log(s, c.h) + [e]])
  {
    var l := LawsOf(w);
    var writes := DeprecateSafe(w, l, s, c.h, c.now);
    StandingIs(w, l, s, c.h);
    e := AdvanceLeaves(w, LawsOf(w), s, c.h, Deprecated, EventKind(Deprecated), c.now);
    DeprecateTraceIs(w, s, c.h, c.now);
    FinalIs(s, TraceOf(w, s, c));
  }

  // ---- moving tags ----

  lemma PointLeaves(w: World, l: Laws, s: Reg, h: Hash, env: Text, tag: Text, kind: Text, now: u64) returns (e: Event)
    requires Honest(w) && l.chain == RegistryChain(w) && Good(l, s) && Log(s, h) != [] && |Log(s, h)| < U32_COUNT
    requires Allowed(StateOf(Log(s, h)).value, Published, kind)
    ensures Entry(w, h, Log(s, h), e, Published, kind, ROOT_KEY_ID, now)
    ensures Final(s, PointTrace(w, s, h, env, tag, kind, now)) ==
            s.(logs := s.logs[h := Log(s, h) + [e]], tags := s.tags[(env, tag) := Pointer(h, kind, e.seqNo)])
  {
    e := AdvanceLeaves(w, l, s, h, Published, kind, now);
    PointTraceIs(w, s, h, env, tag, kind, now, Logged(s, h, e), e);
    FinalIs(s, PointTrace(w, s, h, env, tag, kind, now));
  }

  /** A publish adds the published event and points its own tag, and no other, at the artifact. */
  lemma PublishLeaves(w: World, s: Reg, c: Command) returns (e: Event)
    requires Honest(w) && Good(LawsOf(w), s) && c.Publish? && TraceOf(w, s, c).result.Ok?
    ensures Entry(w, c.h, Log(s, c.h), e, Published, Ascii("published"), ROOT_KEY_ID, c.now)
    ensures Exec(w, s, Attempt(c, None)) ==
            s.(logs := s.logs[c.h := Log(s, c.h) + [e]], tags := s.tags[(c.env, c.tag) := Pointer(c.h, Ascii("published"), e.seqNo)])
  {
    PublishIsPoint(w, s, c.h, c.env, c.tag, c.policy, c.now);
    ForwardEdges();
    StandingHasRoom(w, LawsOf(w), s, c.h, ExpertAttested, Published);
    e := PointLeaves(w, LawsOf(w), s, c.h, c.env, c.tag, EventKind(Published), c.now);
  }

  lemma PublishIsPoint(w: World, s: Reg, h: Hash, env: Text, tag: Text, choice: PolicyChoice, now: u64)
    requires PublishTrace(w, s, h, env, tag, choice, now).result.Ok?
    ensures Standing(w, s, h) == Ok(ExpertAttested)
    ensures PublishTrace(w, s, h, env, tag, choice, now) == PointTrace(w, s, h, env, tag, EventKind(Published), now)
  {
    PublishReads(w, s, h, env, tag, choice, now);
    var a := Stored(w, s, h).value;
    PublishTraceIs(w, s, h, env, tag, choice, now, a);
    GatedIsPoint(w, s, h, LocalRejections(w, a, ResolvePolicy(choice, a.manifest.kind).value, now), env, tag, now);
  }

  lemma PublishReads(w: World, s: Reg, h: Hash, env: Text, tag: Text, choice: PolicyChoice, now: u64)
    requires PublishTrace(w, s, h, env, tag, choice, now).result.Ok?
    ensures Standing(w, s, h) == Ok(ExpertAttested) && Stored(w, s, h).Ok?
  {
  }

  lemma GatedIsPoint(w: World, s: Reg, h: Hash, rejections: seq<Rejection>, env: Text, tag: Text, now: u64)
    requires GatedTrace(w, s, h, rejections, env, tag, now).result.Ok?
    ensures GatedTrace(w, s, h, rejections, env, tag, now) == PointTrace(w, s, h, env, tag, EventKind(Published), now)
  {
  }

  lemma StandingHasRoom(w: World, l: Laws, s: Reg, h: Hash, from: LifecycleState, to: LifecycleState)
    requires l.chain == RegistryChain(w) && Good(l, s) && Standing(w, s, h) == Ok(from) && Edge(from, to) && Rank(from) < 4
    ensures Log(s, h) != [] && |Log(s, h)| < U32_COUNT && Allowed(StateOf(Log(s, h)).value, to, EventKind(to))
  {
    StandingIs(w, l, s, h);
    RoomForward(l, s, h, from, to);
  }

  lemma RollbackLeaves(w: World, s: Reg, c: Command) returns (e: Event)
    requires Honest(w) && Good(LawsOf(w), s) && c.Rollback? && TraceOf(w, s, c).result.Ok?
    ensures Entry(w, c.h, Log(s, c.h), e, Published, Ascii("tag_moved"), ROOT_KEY_ID, c.now)
    ensures Exec(w, s, Attempt(c, None)) ==
            s.(logs := s.logs[c.h := Log(s, c.h) + [e]], tags := s.tags[(c.env, c.tag) := Pointer(c.h, Ascii("tag_moved"), e.seqNo)])
  {
    var l := LawsOf(w);
    var writes := RollbackSafe(w, l, s, c.env, c.tag, c.h, c.now);
    StandingIs(w, l, s, c.h);
    e := PointLeaves(w, LawsOf(w), s, c.h, c.env, c.tag, TAG_MOVED, c.now);
  }

  // ---- compiling ----

  lemma DraftIsEntry(w: World, h: Hash, now: u64)
    requires Honest(w)
    ensures Entry(w, h, [], DraftEvent(w, h, now), Draft, Ascii("draft"), ROOT_KEY_ID, now)
  {
    DraftFacts(w, h, now);
    StampIs(w, h, now);
  }

  /** Fresh bytes get their first two entries. */
  lemma StoreLeaves(w: World, l: Laws, s: Reg, h: Hash, kew: bytes, gate: Preconditions, now: u64) returns (d: Event, e: Event)
    requires Honest(w) && l.chain == RegistryChain(w) && Good(l, s) && l.filed(h, kew) && l.bare(kew) && Log(s, h) == []
    requires gate.structuralClean && gate.compilerSignatureValid
    ensures Entry(w, h, [], d, Draft, Ascii("draft"), ROOT_KEY_ID, now)
    ensures Entry(w, h, [d], e, StructurallyVerified, Ascii("structurally_verified"), COMPILER_KEY_ID, now)
    ensures Final(s, StoreTrace(w, s, h, kew, gate, now)) == s.(artifacts := s.artifacts[h := kew], logs := s.logs[h := [d, e]])
  {
    var s1 := WithArtifact(s, h, kew);
    ArtifactStep(l, s, h, kew);
    d := DraftEvent(w, h, now);
    DraftIsEntry(w, h, now);
    DraftStep(w, l, s1, h, d);
    var s2 := Applied(s1, LogEvent(h, d));
    var s3;
    s3, e := VerifiedStep(w, l, s2, h, d, gate, now);
    VerifiedIsEntry(w, h, d, e, now);
    StoreTraceIs(w, s, h, kew, gate, now, s2, s3, Ok(Report(h, StructurallyVerified)));
    FinalIs(s, StoreTrace(w, s, h, kew, gate, now));
    TwoEntries(s, h, kew, d, e);
  }

  lemma TwoEntries(s: Reg, h: Hash, kew: bytes, d: Event, e: Event)
    requires Log(s, h) == []
    ensures Applied(Applied(WithArtifact(s, h, kew), LogEvent(h, d)), LogEvent(h, e)) ==
            s.(artifacts := s.artifacts[h := kew], logs := s.logs[h := [d, e]])
  {
    assert [] + [d] == [d] && [d] + [e] == [d, e];
    assert s.logs[h := [d]][h := [d, e]] == s.logs[h := [d, e]];
  }

  lemma VerifiedIsEntry(w: World, h: Hash, d: Event, e: Event, now: u64)
    requires Honest(w) && d.artifactHash == h && d.seqNo == 0 && d.newState == Draft
    requires NextEvent(w, d, StructurallyVerified, EventKind(StructurallyVerified), COMPILER_KEY_ID, h, now) == Ok(e)
    ensures Entry(w, h, [d], e, StructurallyVerified, Ascii("structurally_verified"), COMPILER_KEY_ID, now)
  {
    NextEventFacts(w, d, StructurallyVerified, EventKind(StructurallyVerified), COMPILER_KEY_ID, h, now);
    NextStamp(w, d, StructurallyVerified, EventKind(StructurallyVerified), COMPILER_KEY_ID, h, now);
    StampIs(w, h, now);
  }

  /** Bytes the structural gate does not pass stay a draft: only the first entry is made. */
  lemma UncleanStaysDraft(w: World, l: Laws, s: Reg, h: Hash, kew: bytes, gate: Preconditions, now: u64)
    requires Honest(w) && l.chain == RegistryChain(w) && Good(l, s) && l.filed(h, kew) && l.bare(kew) && Log(s, h) == []
    requires !gate.structuralClean || !gate.compilerSignatureValid
    ensures var t := StoreTrace(w, s, h, kew, gate, now);
            t.result == Ok(Report(h, Draft)) && StateOf(Log(Final(s, t), h)) == Some(Draft)
  {
    var s1 := WithArtifact(s, h, kew);
    ArtifactStep(l, s, h, kew);
    DraftFacts(w, h, now);
    DraftStep(w, l, s1, h, DraftEvent(w, h, now));
    var s2 := Applied(s1, LogEvent(h, DraftEvent(w, h, now)));
    ReportedIs(w, l, s2, h);
    UngatedTrace(w, s, h, kew, gate, now, s2);
  }

  lemma UngatedTrace(w: World, s: Reg, h: Hash, kew: bytes, gate: Preconditions, now: u64, s2: Reg)
    requires WithEvent(WithArtifact(s, h, kew), h, DraftEvent(w, h, now)) == Ok(s2)
    requires !gate.structuralClean || !gate.compilerSignatureValid
    ensures StoreTrace(w, s, h, kew, gate, now) == Trace([WithArtifact(s, h, kew), s2], Reported(w, s2, h))
  {
    assert [WithArtifact(s, h, kew)] + ([s2] + []) == [WithArtifact(s, h, kew), s2];
  }

  /** A rule pack for rules, an intent spec for anything else, whatever kind the manifest named. */
  function Kinded(c: Command): Manifest
    requires c.Compile?
  {
    c.manifest.(kind := if c.payload.Rules? then RegimePack else ArtifactKind.IntentSpec)
  }

  lemma CompiledContent(w: World, c: Command)
    requires c.Compile? && Compiled(w, c.manifest, c.payload, c.audit).Ok?
    ensures var (a, kew) := Compiled(w, c.manifest, c.payload, c.audit).value;
            Artifacts.Holds(w.profile, a, Kinded(c), c.payload, c.audit) && a.compilerSignature.keyId == COMPILER_KEY_ID &&
            kew == Artifacts.Encode(a)
  {
    Artifacts.AssembledExactly(w.suite, w.profile, Kinded(c), c.payload, c.audit, w.compilerKey, COMPILER_KEY_ID);
  }

  /** A compile files a record of just this content, under the address it reports, and opens its history. */
  lemma CompileLeaves(w: World, s: Reg, c: Command) returns (a: Artifact, d: Event, e: Event)
    requires Honest(w) && Good(LawsOf(w), s) && c.Compile? && TraceOf(w, s, c).result.Ok?
    ensures Artifacts.Holds(w.profile, a, Kinded(c), c.payload, c.audit) && a.compilerSignature.keyId == COMPILER_KEY_ID
    ensures Artifacts.IsSealed(w.suite, w.compilerKey, a)
    ensures var h := a.manifest.hash;
            Log(s, h) == [] && TraceOf(w, s, c).result == Ok(Report(h, StructurallyVerified)) &&
            Entry(w, h, [], d, Draft, Ascii("draft"), ROOT_KEY_ID, c.now) &&
            Entry(w, h, [d], e, StructurallyVerified, Ascii("structurally_verified"), COMPILER_KEY_ID, c.now) &&
            Exec(w, s, Attempt(c, None)) == s.(artifacts := s.artifacts[h := Artifacts.Encode(a)], logs := s.logs[h := [d, e]])
  {
    CompileIsStore(w, s, c);
    var filed := Compiled(w, c.manifest, c.payload, c.audit).value;
    a := filed.0;
    var kew := filed.1;
    CompiledContent(w, c);
    CompiledIs(w, c.manifest, c.payload, c.audit);
    CompileFiled(w, c.manifest, c.payload, c.audit);
    var writes := StoreSafe(w, LawsOf(w), s, a.manifest.hash, kew, CompilerGate(w, kew), c.now);
    d, e := StoreLeaves(w, LawsOf(w), s, a.manifest.hash, kew, CompilerGate(w, kew), c.now);
  }

  lemma CompileIsStore(w: World, s: Reg, c: Command)
    requires c.Compile? && TraceOf(w, s, c).result.Ok?
    ensures Compiled(w, c.manifest, c.payload, c.audit).Ok?
    ensures var (a, kew) := Compiled(w, c.manifest, c.payload, c.audit).value;
            TraceOf(w, s, c) == StoreTrace(w, s, a.manifest.hash, kew, CompilerGate(w, kew), c.now)
  {
    CompileIdle(w, s, c.manifest, c.payload, c.audit, c.blocking, c.now);
    CompileTraceIs(w, s, c.manifest, c.payload, c.audit, c.blocking, c.now);
  }

  // ---- attesting ----

  /** The expert's attestation of one claim about this manifest, made at that time. */
  predicate Claimed(w: World, m: Manifest, t: AttestationType, now: u64, a: Attestation) {
    && a.artifactHash == m.hash && a.scope == WholeArtifact && a.claim == t
    && a.signerIdentity == Ascii("Test Expert") && a.keyId == EXPERT_KEY_ID
    && a.signerRole == (if t == PublicationApproval then PublicationApprover else DomainExpert)
    && a.regimeId == m.regimeId && a.effectiveFrom == m.effectiveFrom && a.effectiveTo == m.effectiveTo
    && a.legalSourceHash == m.sourceCorpusHash && a.irSchemaVersion == m.irSchemaVersion && a.compilerVersion == m.compilerVersion
    && a.policyVersion == Ascii("ap-1") && a.testCorpusHash.None? && a.expiration.None? && a.reviewerComments.None?
    && Stamped(w, a.timestamp, m.hash, now)
    && Attestations.SignatureHolds(w.suite, w.suite.publicOf(w.expertKey), a)
  }

  lemma ExpertClaims(w: World, m: Manifest, types: Claims, now: u64, i: nat)
    requires Honest(w) && i < |types|
    ensures Claimed(w, m, types[i], now, ExpertAttestations(w, m, types, now)[i])
  {
    var a := ExpertAttestations(w, m, types, now)[i];
    AttestedAt(w, m, types, now, i);
    StampIs(w, m.hash, now);
    var message := Attestations.PayloadPrefix(a);
    SignedClaim(w, m, types[i], now);
  }

  lemma SignedClaim(w: World, m: Manifest, t: AttestationType, now: u64)
    requires Honest(w)
    ensures Attestations.SignatureHolds(w.suite, w.suite.publicOf(w.expertKey), ExpertAttestation(w, m, t, now))
  {
    var unsigned := Attestation(
      m.hash, WholeArtifact, t, TEST_EXPERT, EXPERT_KEY_ID, RoleFor(t), m.regimeId, m.effectiveFrom, m.effectiveTo,
      m.sourceCorpusHash, m.irSchemaVersion, m.compilerVersion, POLICY_VERSION, None, Stamp(w.suite, w.tsaKey, m.hash, now),
      None, None, ZERO_SIG);
    Attestations.SigningVerifies(w.suite, w.expertKey, unsigned, ZERO_SIG);
  }

  /** The record with one attestation for each claim, in order, in place of any it carried. */
  predicate AttestedBy(w: World, a: Artifact, types: Claims, now: u64, b: Artifact) {
    b == a.(attestations := b.attestations) && |b.attestations| == |types| &&
    forall i | 0 <= i < |types| :: Claimed(w, a.manifest, types[i], now, b.attestations[i])
  }

  lemma RewrittenIs(w: World, a: Artifact, types: Claims, now: u64) returns (b: Artifact)
    requires Honest(w)
    ensures AttestedBy(w, a, types, now, b) && Rewritten(w, a, types, now) == Artifacts.Encode(b)
  {
    b := a.(attestations := ExpertAttestations(w, a.manifest, types, now));
    forall i | 0 <= i < |types|
      ensures Claimed(w, a.manifest, types[i], now, b.attestations[i])
    {
      ExpertClaims(w, a.manifest, types, now, i);
    }
  }

  lemma FileLeaves(w: World, l: Laws, s: Reg, h: Hash, kew: bytes, now: u64) returns (e: Event)
    requires Honest(w) && l.chain == RegistryChain(w) && Good(l, s) && l.filed(h, kew) && StateOf(Log(s, h)) == Some(MlChecked)
    ensures Entry(w, h, Log(s, h), e, ExpertAttested, Ascii("expert_attested"), ROOT_KEY_ID, now)
    ensures Final(s, FileTrace(w, s, h, h, kew, [], now)) ==
            s.(artifacts := s.artifacts[h := kew], logs := s.logs[h := Log(s, h) + [e]])
  {
    var s1 := WithArtifact(s, h, kew);
    ArtifactStep(l, s, h, kew);
    ForwardEdges();
    e := AdvanceFrom(w, l, s1, h, MlChecked, ExpertAttested, now);
    FileTraceIs(w, s, h, kew, now, Logged(s1, h, e), e);
    LastOfTwo(s, s1, Logged(s1, h, e), Reported(w, Logged(s1, h, e), h));
  }

  lemma LastOfTwo(s: Reg, a: Reg, b: Reg, r: Result<Report, Registry.Error>)
    ensures Final(s, Trace([a, b], r)) == b
  {
  }

  /** An attest files the stored record again with the claimed attestations, at the same address. */
  lemma AttestLeaves(w: World, s: Reg, c: Command) returns (a: Artifact, b: Artifact, e: Event)
    requires Honest(w) && Good(LawsOf(w), s) && c.Attest? && TraceOf(w, s, c).result.Ok?
    ensures Stored(w, s, c.h) == Ok(a) && AttestedBy(w, a, c.types, c.now, b)
    ensures Entry(w, c.h, Log(s, c.h), e, ExpertAttested, Ascii("expert_attested"), ROOT_KEY_ID, c.now)
    ensures Exec(w, s, Attempt(c, None)) ==
            s.(artifacts := s.artifacts[c.h := Artifacts.Encode(b)], logs := s.logs[c.h := Log(s, c.h) + [e]])
  {
    AttestWasChecked(w, LawsOf(w), s, c.h, c.types, c.now);
    a := AttestReady(w, s, c.h, c.types, c.now);
    var writes := AttestSafe(w, LawsOf(w), s, c.h, c.types, c.now, a);
    var rejections := AttestTraceIs(w, s, c.h, c.types, c.now, a);
    b := RewrittenIs(w, a, c.types, c.now);
    e := FileLeaves(w, LawsOf(w), s, c.h, Rewritten(w, a, c.types, c.now), c.now);
  }

  lemma AttestWasChecked(w: World, l: Laws, s: Reg, h: Hash, types: Claims, now: u64)
    requires l.chain == RegistryChain(w) && Good(l, s) && AttestTrace(w, s, h, types, now).result.Ok?
    ensures types != [] && Standing(w, s, h) == Ok(MlChecked) && StateOf(Log(s, h)) == Some(MlChecked)
  {
    StandingIs(w, l, s, h);
  }

  // ---- revoking ----

  /** The policy configured, else the least strict one its reason allows. */
  function Decided(recorded: Option<RevocationPolicy>, class_: Option<ReasonClass>): RevocationPolicy
    requires recorded.Some? || class_.Some?
  {
    if recorded.Some? then recorded.value
    else if class_.value == KeyCompromise || class_.value == LegalInvalidity then HardStop
    else if class_.value == RoutineSupersession then FinishPinned
    else AuditOnly
  }

  /** A policy is decided unless neither it nor a reason is given, or the one configured is too lax for the reason. */
  lemma PolicyDecided(recorded: Option<RevocationPolicy>, class_: Option<ReasonClass>)
    ensures var r := RecordedPolicy(recorded, class_);
            if recorded.None? && class_.None? then r == Err(NoRevocationPolicy)
            else if recorded.Some? && class_.Some? &&
                    (((class_.value == KeyCompromise || class_.value == LegalInvalidity) && recorded.value != HardStop) ||
                     (class_.value == RoutineSupersession && recorded.value == AuditOnly)) then r == Err(PolicyBelowFloor)
            else r == Ok(Decided(recorded, class_))
  {
  }

  lemma RecordLeaves(
    w: World, l: Laws, s: Reg, h: Hash, policy: RevocationPolicy, class_: Option<ReasonClass>, reason: Option<Text>, now: u64) returns (e: Event)
    requires Honest(w) && l.chain == RegistryChain(w) && Good(l, s) && |Log(s, h)| < U32_COUNT
    requires StateOf(Log(s, h)) == Some(Published) || StateOf(Log(s, h)) == Some(Deprecated)
    ensures Entry(w, h, Log(s, h), e, Revoked, Ascii("revoked"), ROOT_KEY_ID, now)
    ensures Final(s, RecordTrace(w, s, h, policy, class_, reason, now)) ==
            s.(logs := s.logs[h := Log(s, h) + [e]],
               revocations := s.revocations[h := RevocationRecord(policy, reason, e.seqNo, policy == AuditOnly, class_)])
  {
    e := AdvanceLeaves(w, l, s, h, Revoked, EventKind(Revoked), now);
    var record := RevocationRecord(policy, reason, e.seqNo, policy.AuditOnly?, class_);
    NoneRecorded(l, s, h);
    NoteIs(w, Logged(s, h, e), h, record);
    FinalThen(s, Logged(s, h, e), NoteTrace(w, Logged(s, h, e), h, record), []);
  }

  lemma NoneRecorded(l: Laws, s: Reg, h: Hash)
    requires Good(l, s) && StateOf(Log(s, h)) != Some(Revoked)
    ensures h !in s.revocations
  {
  }

  lemma NoteIs(w: World, s: Reg, h: Hash, record: RevocationRecord)
    requires h !in s.revocations
    ensures Final(s, NoteTrace(w, s, h, record)) == s.(revocations := s.revocations[h := record])
  {
  }

  /** A revocation ends the history and records the policy decided, its reason, the event it rests on and whether it is only audited. */
  lemma RevokeLeaves(w: World, s: Reg, c: Command) returns (e: Event)
    requires Honest(w) && Good(LawsOf(w), s) && c.Revoke? && TraceOf(w, s, c).result.Ok?
    ensures Entry(w, c.h, Log(s, c.h), e, Revoked, Ascii("revoked"), ROOT_KEY_ID, c.now)
    ensures c.recorded.Some? || c.reasonClass.Some?
    ensures var policy := Decided(c.recorded, c.reasonClass);
            Exec(w, s, Attempt(c, None)) ==
            s.(logs := s.logs[c.h := Log(s, c.h) + [e]],
               revocations := s.revocations[c.h := RevocationRecord(policy, c.reason, e.seqNo, policy == AuditOnly, c.reasonClass)])
  {
    var writes := RevokeSafe(w, LawsOf(w), s, c.h, c.recorded, c.reasonClass, c.reason, c.now);
    StandingIs(w, LawsOf(w), s, c.h);
    PolicyDecided(c.recorded, c.reasonClass);
    var policy := Decided(c.recorded, c.reasonClass);
    RevokeTraceIs(w, s, c.h, c.recorded, c.reasonClass, c.reason, c.now, policy, StateOf(Log(s, c.h)).value);
    e := RecordLeaves(w, LawsOf(w), s, c.h, policy, c.reasonClass, c.reason, c.now);
  }
}
