/** How each command is refused, in the order its checks are made, and what a publish demands of the attestations. */
module Refusals {
  import opened Wrappers
  import opened Wire
  import opened Crypto
  import opened Records
  import opened Attestations
  import opened Events
  import opened Registry
  import opened Lifecycle
  import opened Runs
  import opened Reach
  import opened Outcomes
  import opened Admission
  import opened Verification
  import Artifacts

  /** The refusal of a command that needs a history standing in another state than it does. */
  function Misplaced(log: seq<Event>): Registry.Error {
    if log == [] then NoState else WrongState(log[|log| - 1].newState)
  }

  lemma StandingOrMisplaced(w: World, l: Laws, s: Reg, h: Hash)
    requires l.chain == RegistryChain(w) && Good(l, s)
    ensures Standing(w, s, h) == if Log(s, h) == [] then Err(NoState) else Ok(Log(s, h)[|Log(s, h)| - 1].newState)
  {
    StandingIs(w, l, s, h);
  }

  lemma CompileRefused(w: World, s: Reg, c: Command)
    requires Honest(w) && Good(LawsOf(w), s) && c.Compile? && TraceOf(w, s, c).result.Err?
    ensures var compiled := Compiled(w, c.manifest, c.payload, c.audit);
            TraceOf(w, s, c).result.error ==
            if c.payload.Rules? && c.blocking then BlockingFindings
            else if compiled.Err? then AssembleFailed(Artifacts.NonCanonical)
            else EventExists(0)
  {
    var compiled := Compiled(w, c.manifest, c.payload, c.audit);
    if c.payload.Intent? || !c.blocking {
      Artifacts.AssembledExactly(w.suite, w.profile, Kinded(c), c.payload, c.audit, w.compilerKey, COMPILER_KEY_ID);
      if compiled.Ok? {
        UnblockedIsStore(w, s, c);
        CompileFiled(w, c.manifest, c.payload, c.audit);
        StoreRefused(w, LawsOf(w), s, compiled.value.0.manifest.hash, compiled.value.1, c.now);
      }
    }
  }

  lemma StoreRefused(w: World, l: Laws, s: Reg, h: Hash, kew: bytes, now: u64)
    requires Honest(w) && l.chain == RegistryChain(w) && Good(l, s) && l.filed(h, kew) && l.bare(kew)
    requires CompilerGate(w, kew).structuralClean && CompilerGate(w, kew).compilerSignatureValid
    ensures var t := StoreTrace(w, s, h, kew, CompilerGate(w, kew), now); t.result.Err? ==> t.result.error == EventExists(0)
  {
    var writes := StoreSafe(w, l, s, h, kew, CompilerGate(w, kew), now);
  }

  lemma UnblockedIsStore(w: World, s: Reg, c: Command)
    requires c.Compile? && (c.payload.Intent? || !c.blocking) && Compiled(w, c.manifest, c.payload, c.audit).Ok?
    ensures var (a, kew) := Compiled(w, c.manifest, c.payload, c.audit).value;
            TraceOf(w, s, c) == StoreTrace(w, s, a.manifest.hash, kew, CompilerGate(w, kew), c.now)
  {
  }

  lemma MlCheckRefused(w: World, s: Reg, c: Command)
    requires Honest(w) && Good(LawsOf(w), s) && c.MlCheck? && TraceOf(w, s, c).result.Err?
    ensures var log := Log(s, c.h);
            TraceOf(w, s, c).result.error ==
            if StateOf(log) != Some(StructurallyVerified) then Misplaced(log) else SidecarExists
  {
    StandingOrMisplaced(w, LawsOf(w), s, c.h);
    var writes := MlCheckSafe(w, LawsOf(w), s, c.h, c.now);
    MlCheckStops(w, s, c.h, c.now);
  }

  lemma MlCheckStops(w: World, s: Reg, h: Hash, now: u64)
    ensures Standing(w, s, h).Err? ==> MlCheckTrace(w, s, h, now).result == Err(Standing(w, s, h).error)
    ensures Standing(w, s, h).Ok? && Standing(w, s, h).value != StructurallyVerified ==>
              MlCheckTrace(w, s, h, now).result == Err(WrongState(Standing(w, s, h).value))
    ensures Standing(w, s, h) == Ok(StructurallyVerified) && h in s.consistency ==> MlCheckTrace(w, s, h, now).result == Err(SidecarExists)
  {
  }

  lemma AttestRefused(w: World, s: Reg, c: Command) returns (rejections: seq<Rejection>)
    requires Honest(w) && Good(LawsOf(w), s) && c.Attest? && TraceOf(w, s, c).result.Err?
    ensures rejections != []
    ensures var log := Log(s, c.h);
            TraceOf(w, s, c).result.error ==
            if c.types == [] then NoTypes
            else if StateOf(log) != Some(MlChecked) then Misplaced(log)
            else AttestationSetRejected(rejections)
  {
    StandingOrMisplaced(w, LawsOf(w), s, c.h);
    rejections := [KeyUnknown];
    if c.types != [] && StateOf(Log(s, c.h)) == Some(MlChecked) {
      rejections := AttestRejected(w, s, c);
    } else {
      AttestStops(w, s, c.h, c.types, c.now);
    }
  }

  lemma AttestStops(w: World, s: Reg, h: Hash, types: Claims, now: u64)
    ensures types == [] ==> AttestTrace(w, s, h, types, now).result == Err(NoTypes)
    ensures types != [] && Standing(w, s, h).Err? ==> AttestTrace(w, s, h, types, now).result == Err(Standing(w, s, h).error)
    ensures types != [] && Standing(w, s, h).Ok? && Standing(w, s, h).value != MlChecked ==>
              AttestTrace(w, s, h, types, now).result == Err(WrongState(Standing(w, s, h).value))
  {
  }

  lemma AttestRejected(w: World, s: Reg, c: Command) returns (rejections: seq<Rejection>)
    requires Honest(w) && Good(LawsOf(w), s) && c.Attest? && TraceOf(w, s, c).result.Err?
    requires c.types != [] && StateOf(Log(s, c.h)) == Some(MlChecked)
    ensures rejections != [] && TraceOf(w, s, c).result.error == AttestationSetRejected(rejections)
  {
    StandingIs(w, LawsOf(w), s, c.h);
    var a := AttestReady(w, s, c.h, c.types, c.now);
    rejections := AttestTraceIs(w, s, c.h, c.types, c.now, a);
    var kew := Rewritten(w, a, c.types, c.now);
    FileRejected(w, LawsOf(w), s, c.h, kew, rejections, c.now);
  }

  lemma FileRejected(w: World, l: Laws, s: Reg, h: Hash, kew: bytes, rejections: seq<Rejection>, now: u64)
    requires Honest(w) && l.chain == RegistryChain(w) && Good(l, s) && l.filed(h, kew) && StateOf(Log(s, h)) == Some(MlChecked)
    requires FileTrace(w, s, h, h, kew, rejections, now).result.Err?
    ensures rejections != [] && FileTrace(w, s, h, h, kew, rejections, now).result.error == AttestationSetRejected(rejections)
  {
    var writes := FileSafe(w, l, s, h, kew, rejections, now);
    FileRefused(w, s, h, kew, rejections, now);
  }

  lemma PublishRefused(w: World, s: Reg, c: Command) returns (rejections: seq<Rejection>)
    requires Honest(w) && Good(LawsOf(w), s) && c.Publish? && TraceOf(w, s, c).result.Err?
    ensures rejections != []
    ensures var log := Log(s, c.h);
            TraceOf(w, s, c).result.error ==
            if StateOf(log) != Some(ExpertAttested) then Misplaced(log)
            else if c.policy.Unreadable? then PolicyLoad
            else AttestationSetRejected(rejections)
  {
    StandingOrMisplaced(w, LawsOf(w), s, c.h);
    rejections := [KeyUnknown];
    if StateOf(Log(s, c.h)) == Some(ExpertAttested) {
      GoodLog(LawsOf(w), s, c.h);
      var a := StoredIs(w, s, c.h);
      var writes := PublishSafe(w, LawsOf(w), s, c.h, c.env, c.tag, c.policy, c.now, a);
      PublishGates(w, s, c.h, c.env, c.tag, c.policy, c.now, a);
      if !c.policy.Unreadable? {
        rejections := LocalRejections(w, a, ResolvePolicy(c.policy, a.manifest.kind).value, c.now);
      }
    } else {
      PublishStops(w, s, c.h, c.env, c.tag, c.policy, c.now);
    }
  }

  lemma PublishStops(w: World, s: Reg, h: Hash, env: Text, tag: Text, choice: PolicyChoice, now: u64)
    ensures Standing(w, s, h).Err? ==> PublishTrace(w, s, h, env, tag, choice, now).result == Err(Standing(w, s, h).error)
    ensures Standing(w, s, h).Ok? && Standing(w, s, h).value != ExpertAttested ==>
              PublishTrace(w, s, h, env, tag, choice, now).result == Err(WrongState(Standing(w, s, h).value))
  {
  }

  lemma PublishGates(w: World, s: Reg, h: Hash, env: Text, tag: Text, choice: PolicyChoice, now: u64, a: Artifact)
    requires Standing(w, s, h) == Ok(ExpertAttested) && Stored(w, s, h) == Ok(a)
    ensures choice.Unreadable? ==> PublishTrace(w, s, h, env, tag, choice, now).result == Err(PolicyLoad)
    ensures !choice.Unreadable? ==>
              ResolvePolicy(choice, a.manifest.kind).Ok? &&
              var rejections := LocalRejections(w, a, ResolvePolicy(choice, a.manifest.kind).value, now);
              rejections != [] ==> PublishTrace(w, s, h, env, tag, choice, now).result == Err(AttestationSetRejected(rejections))
  {
  }

  lemma DeprecateRefused(w: World, s: Reg, c: Command)
    requires Honest(w) && Good(LawsOf(w), s) && c.Deprecate? && TraceOf(w, s, c).result.Err?
    ensures var log := Log(s, c.h);
            TraceOf(w, s, c).result.error == if StateOf(log) != Some(Published) then Misplaced(log) else SequenceExhausted
  {
    StandingOrMisplaced(w, LawsOf(w), s, c.h);
    var writes := DeprecateSafe(w, LawsOf(w), s, c.h, c.now);
    if StateOf(Log(s, c.h)) == Some(Published) {
      ForwardRoom(LawsOf(w), s, c.h);
      DeprecateFull(w, LawsOf(w), s, c.h, c.now);
    } else {
      DeprecateStops(w, s, c.h, c.now);
    }
  }

  lemma DeprecateFull(w: World, l: Laws, s: Reg, h: Hash, now: u64)
    requires Honest(w) && l.chain == RegistryChain(w) && Good(l, s) && StateOf(Log(s, h)) == Some(Published) && |Log(s, h)| == U32_COUNT
    ensures DeprecateTrace(w, s, h, now).result == Err(SequenceExhausted)
  {
    PublishedMayDeprecate();
    FullFrom(w, l, s, h, Published, Deprecated, now);
    DeprecateTraceIs(w, s, h, now);
  }

  lemma PublishedMayDeprecate()
    ensures Edge(Published, Deprecated)
  {
  }

  lemma FullFrom(w: World, l: Laws, s: Reg, h: Hash, from: LifecycleState, to: LifecycleState, now: u64)
    requires Honest(w) && l.chain == RegistryChain(w) && Good(l, s) && StateOf(Log(s, h)) == Some(from) && |Log(s, h)| == U32_COUNT
    requires Edge(from, to)
    ensures Standing(w, s, h) == Ok(from) && Advance(w, s, h, to, EventKind(to), now) == Err(SequenceExhausted)
  {
    StandingIs(w, l, s, h);
    AdvanceFull(w, l, s, h, to, EventKind(to), now);
  }

  lemma DeprecateStops(w: World, s: Reg, h: Hash, now: u64)
    ensures Standing(w, s, h).Err? ==> DeprecateTrace(w, s, h, now).result == Err(Standing(w, s, h).error)
    ensures Standing(w, s, h).Ok? && Standing(w, s, h).value != Published ==>
              DeprecateTrace(w, s, h, now).result == Err(WrongState(Standing(w, s, h).value))
  {
  }

  lemma RevokeRefused(w: World, s: Reg, c: Command)
    requires Honest(w) && Good(LawsOf(w), s) && c.Revoke? && TraceOf(w, s, c).result.Err?
    ensures var (log, policy) := (Log(s, c.h), RecordedPolicy(c.recorded, c.reasonClass));
            TraceOf(w, s, c).result.error ==
            if policy.Err? then policy.error
            else if StateOf(log) != Some(Published) && StateOf(log) != Some(Deprecated) then Misplaced(log)
            else SequenceExhausted
  {
    StandingOrMisplaced(w, LawsOf(w), s, c.h);
    var policy := RecordedPolicy(c.recorded, c.reasonClass);
    var writes := RevokeSafe(w, LawsOf(w), s, c.h, c.recorded, c.reasonClass, c.reason, c.now);
    if policy.Ok? && (StateOf(Log(s, c.h)) == Some(Published) || StateOf(Log(s, c.h)) == Some(Deprecated)) {
      ForwardRoom(LawsOf(w), s, c.h);
      RecordFull(w, LawsOf(w), s, c.h, policy.value, c.reasonClass, c.reason, c.now);
      RevokeTraceIs(w, s, c.h, c.recorded, c.reasonClass, c.reason, c.now, policy.value, StateOf(Log(s, c.h)).value);
    } else {
      RevokeStops(w, s, c.h, c.recorded, c.reasonClass, c.reason, c.now);
    }
  }

  lemma RevokeStops(
    w: World, s: Reg, h: Hash, recorded: Option<RevocationPolicy>, class_: Option<ReasonClass>, reason: Option<Text>, now: u64)
    ensures var (t, policy, standing) := (RevokeTrace(w, s, h, recorded, class_, reason, now), RecordedPolicy(recorded, class_), Standing(w, s, h));
            (policy.Err? ==> t.result == Err(policy.error)) &&
            (policy.Ok? && standing.Err? ==> t.result == Err(standing.error)) &&
            (policy.Ok? && standing.Ok? && standing.value != Published && standing.value != Deprecated ==>
               t.result == Err(WrongState(standing.value)))
  {
  }

  lemma RollbackRefused(w: World, s: Reg, c: Command)
    requires Honest(w) && Good(LawsOf(w), s) && c.Rollback? && TraceOf(w, s, c).result.Err?
    ensures var log := Log(s, c.h);
            TraceOf(w, s, c).result.error ==
            if log == [] then NoState
            else if StateOf(log) != Some(Published) then RollbackIneligible(log[|log| - 1].newState)
            else SequenceExhausted
  {
    StandingOrMisplaced(w, LawsOf(w), s, c.h);
    var writes := RollbackSafe(w, LawsOf(w), s, c.env, c.tag, c.h, c.now);
    if StateOf(Log(s, c.h)) == Some(Published) {
      ForwardRoom(LawsOf(w), s, c.h);
      AdvanceFull(w, LawsOf(w), s, c.h, Published, TAG_MOVED, c.now);
    }
  }

  // ---- what a publish demands ----

  /** An approval's companions: the source, and for anything but an intent spec the scenarios. */
  predicate Accompanied(kind: ArtifactKind, atts: seq<Attestation>) {
    Carries(SourceFidelity, atts) && (kind == ArtifactKind.IntentSpec || Carries(ScenarioCoverage, atts))
  }

  predicate Attested(kind: ArtifactKind, choice: PolicyChoice, atts: seq<Attestation>, now: u64) {
    match choice
    case Unreadable => false
    case BuiltIn => now < U64_MAX && Carries(PublicationApproval, atts) && Accompanied(kind, atts)
    case Bundle(policy) =>
      (atts == [] || now < U64_MAX) && (forall t :: t in policy.required ==> Count(t, atts) >= Required(policy, t)) &&
      (Carries(PublicationApproval, atts) ==> Accompanied(kind, atts))
  }

  /** A publish succeeds exactly from expert_attested, with the attestations its policy asks for, inside the key window. */
  lemma PublishExactly(w: World, s: Reg, c: Command)
    requires Honest(w) && Good(LawsOf(w), s) && c.Publish?
    ensures TraceOf(w, s, c).result.Ok? <==>
            StateOf(Log(s, c.h)) == Some(ExpertAttested) && Stored(w, s, c.h).Ok? &&
            var a := Stored(w, s, c.h).value; Attested(a.manifest.kind, c.policy, a.attestations, c.now)
  {
    if StateOf(Log(s, c.h)) == Some(ExpertAttested) {
      GoodLog(LawsOf(w), s, c.h);
      var a := StoredIs(w, s, c.h);
      var writes := PublishSafe(w, LawsOf(w), s, c.h, c.env, c.tag, c.policy, c.now, a);
      GateIsAttested(w, a, c.policy, c.now);
    } else {
      StandingIs(w, LawsOf(w), s, c.h);
      PublishStops(w, s, c.h, c.env, c.tag, c.policy, c.now);
    }
  }

  lemma GateIsAttested(w: World, a: Artifact, choice: PolicyChoice, now: u64)
    requires Honest(w) && forall x :: x in a.attestations ==> Expertly(w, a.manifest, x)
    ensures var policy := ResolvePolicy(choice, a.manifest.kind);
            policy.Ok? && LocalRejections(w, a, policy.value, now) == [] <==> Attested(a.manifest.kind, choice, a.attestations, now)
  {
    if !choice.Unreadable? {
      LocalGate(w, a, ResolvePolicy(choice, a.manifest.kind).value, now);
      CompanionsAre(a.manifest.kind, a.attestations);
      CompleteMeetsBuiltIn(a);
      CompleteIs(a);
    }
  }

  lemma CompanionsAre(kind: ArtifactKind, atts: seq<Attestation>)
    ensures (forall t :: t in CoTypes(kind) ==> Carries(t, atts)) <==> Accompanied(kind, atts)
  {
    assert SourceFidelity in CoTypes(kind);
    assert kind != ArtifactKind.IntentSpec ==> ScenarioCoverage in CoTypes(kind);
  }

  lemma CompleteIs(a: Artifact)
    ensures Complete(a) <==> Carries(PublicationApproval, a.attestations) && Accompanied(a.manifest.kind, a.attestations)
  {
    var required := PolicyForKind(a.manifest.kind).required;
    assert SourceFidelity in required && PublicationApproval in required;
    assert a.manifest.kind != ArtifactKind.IntentSpec ==> ScenarioCoverage in required;
  }

  // ---- why an artifact is not admitted ----

  /** The status a consumer is told of a history that does not stand at published. */
  function StatusTold(log: seq<Event>): RegistryStatus {
    if log != [] && log[|log| - 1].newState == Deprecated then Superseded
    else if log != [] && log[|log| - 1].newState == Revoked then RegistryStatus.Withdrawn
    else Unknown
  }

  /** In a good registry an address is admitted, or refused as unreadable, as not published, or for its attestations, in that order. */
  lemma AdmittedOrTold(w: World, s: Reg, h: Hash, env: Text, now: u64) returns (rejections: seq<Rejection>)
    requires Honest(w) && Good(LawsOf(w), s)
    ensures var r := Admit(w, s, h, env, now);
            if h !in s.artifacts then r == Ok(Refused(ReadFailed))
            else if StateOf(Log(s, h)) != Some(Published) then r == Ok(Refused(NotAuthoritative(StatusTold(Log(s, h)))))
            else
              Stored(w, s, h).Ok? && var a := Stored(w, s, h).value;
              if Welcome(a, env, now) then r == Ok(Admitted(a))
              else rejections != [] && r == Ok(Refused(VerifyRejected(AttestationsRejected(rejections))))
  {
    rejections := [];
    if h !in s.artifacts {
      UnfiledIsUnread(w, s, h, env, now);
    } else if StateOf(Log(s, h)) != Some(Published) {
      UnpublishedIsTold(w, s, h, env, now);
    } else {
      rejections := WelcomeOrRejected(w, s, h, env, now);
    }
  }

  lemma UnpublishedIsTold(w: World, s: Reg, h: Hash, env: Text, now: u64)
    requires Honest(w) && Good(LawsOf(w), s) && h in s.artifacts && StateOf(Log(s, h)) != Some(Published)
    ensures Admit(w, s, h, env, now) == Ok(Refused(NotAuthoritative(StatusTold(Log(s, h)))))
  {
    var a := StoredIs(w, s, h);
    ToldStatus(w, LawsOf(w), s, h);
    RefusedUnpublished(w, s, h, a, env, now, StatusTold(Log(s, h)));
  }

  lemma WelcomeOrRejected(w: World, s: Reg, h: Hash, env: Text, now: u64) returns (rejections: seq<Rejection>)
    requires Honest(w) && Good(LawsOf(w), s) && h in s.artifacts && StateOf(Log(s, h)) == Some(Published)
    ensures Stored(w, s, h).Ok?
    ensures var (r, a) := (Admit(w, s, h, env, now), Stored(w, s, h).value);
            if Welcome(a, env, now) then r == Ok(Admitted(a))
            else rejections != [] && r == Ok(Refused(VerifyRejected(AttestationsRejected(rejections))))
  {
    rejections := [];
    var a := AdmitExactly(w, s, h, env, now);
    WelcomeIs(a, env, now);
    if !Acceptable(a, env, now) {
      rejections := RejectedAs(w, s, h, a, env, now);
    }
  }

  /** Approved, with what an approval must come with, locally, while the key window is open. */
  predicate Welcome(a: Artifact, env: Text, now: u64) {
    env == LOCAL && now < U64_MAX && Carries(PublicationApproval, a.attestations) && Accompanied(a.manifest.kind, a.attestations)
  }

  lemma WelcomeIs(a: Artifact, env: Text, now: u64)
    ensures Acceptable(a, env, now) <==> Welcome(a, env, now)
  {
    CompleteIs(a);
  }

  lemma UnfiledIsUnread(w: World, s: Reg, h: Hash, env: Text, now: u64)
    requires h !in s.artifacts
    ensures Admit(w, s, h, env, now) == Ok(Refused(ReadFailed))
  {
  }

  lemma ToldStatus(w: World, l: Laws, s: Reg, h: Hash)
    requires l.chain == RegistryChain(w) && Good(l, s) && StateOf(Log(s, h)) != Some(Published)
    ensures ReadEvidence(w, s, h).Ok? && ReadEvidence(w, s, h).value.status == StatusTold(Log(s, h))
    ensures !StatusTold(Log(s, h)).Authoritative?
  {
    if Log(s, h) != [] {
      GoodLog(l, s, h);
      HeadIs(w, s, h);
    }
  }

  lemma RefusedUnpublished(w: World, s: Reg, h: Hash, a: Artifact, env: Text, now: u64, status: RegistryStatus)
    requires Stored(w, s, h) == Ok(a) && a.manifest.hash == h
    requires ReadEvidence(w, s, h).Ok? && ReadEvidence(w, s, h).value.status == status && !status.Authoritative?
    ensures Admit(w, s, h, env, now) == Ok(Refused(NotAuthoritative(status)))
  {
  }

  lemma RejectedAs(w: World, s: Reg, h: Hash, a: Artifact, env: Text, now: u64) returns (rejections: seq<Rejection>)
    requires Honest(w) && Good(LawsOf(w), s) && h in s.artifacts && Filed(w, h, s.artifacts[h], a) && Stored(w, s, h) == Ok(a)
    requires StateOf(Log(s, h)) == Some(Published) && !Acceptable(a, env, now)
    ensures rejections != [] && Admit(w, s, h, env, now) == Ok(Refused(VerifyRejected(AttestationsRejected(rejections))))
  {
    GoodEvidence(w, LawsOf(w), s, h);
    var (t, context, policy) := (AdmissionTrust(w, a), AdmissionContext(a, env, now), PolicyForKind(a.manifest.kind));
    rejections := SetRejections(Checks(CheckerFor(t, context, a.manifest)), a.manifest.kind, policy, a.attestations);
    CompilerAccepted(w, a);
    AdmissionSet(w, a, env, now);
    RejectedVerdict(t, context, policy, s.artifacts[h], a, |Artifacts.Envelope(a)|, ReadEvidence(w, s, h).value);
    RefusedByVerdict(w, s, h, a, env, now, AttestationsRejected(rejections));
  }

  lemma RejectedVerdict(t: Trust, context: Context, policy: Policy, kew: bytes, a: Artifact, len: nat, evidence: Evidence)
    requires Artifacts.Decode(t.profile, kew) == Ok((a, len)) && Artifacts.VerifyHash(t.suite, t.profile, kew).Ok?
    requires len <= |kew| && CompilerKeyAccepts(t, kew[..len], a.compilerSignature)
    ensures var rejections := SetRejections(Checks(CheckerFor(t, context, a.manifest)), a.manifest.kind, policy, a.attestations);
            rejections != [] ==> Verify(t, context, policy, kew, evidence) == Some(AttestationsRejected(rejections))
  {
  }

  lemma RefusedByVerdict(w: World, s: Reg, h: Hash, a: Artifact, env: Text, now: u64, reason: Reason)
    requires Stored(w, s, h) == Ok(a) && a.manifest.hash == h && h in s.artifacts
    requires ReadEvidence(w, s, h).Ok? && ReadEvidence(w, s, h).value.status.Authoritative?
    requires Verify(AdmissionTrust(w, a), AdmissionContext(a, env, now), PolicyForKind(a.manifest.kind), s.artifacts[h],
                    ReadEvidence(w, s, h).value) == Some(reason)
    ensures Admit(w, s, h, env, now) == Ok(Refused(VerifyRejected(reason)))
  {
  }
}
