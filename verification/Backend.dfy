/**
 The local backend as the commands see it, and the seven commands as they run against it.

 `history` records the registry after every write, so each command's contract fixes not only the registry it
 leaves but the order of its writes and every registry in between.
 */
module Backend {
  import opened Wrappers
  import opened Wire
  import opened Crypto
  import opened Records
  import opened Attestations
  import opened Events
  import opened Registry
  import Artifacts

  class LocalFsBackend {
    var artifacts: map<Hash, bytes>
    var logs: map<Hash, seq<Event>>
    var tags: map<(Text, Text), Pointer>
    var consistency: map<Hash, ConsistencyBlock>
    var revocations: map<Hash, RevocationRecord>
    ghost var history: seq<Reg>

    constructor ()
      ensures State() == EMPTY && history == []
    {
      artifacts, logs, tags, consistency, revocations := map[], map[], map[], map[], map[];
      history := [];
    }

    ghost function State(): Reg
      reads this
    {
      Reg(artifacts, logs, tags, consistency, revocations)
    }

    /** Overwrites. */
    method PutArtifact(h: Hash, kew: bytes)
      modifies this
      ensures State() == WithArtifact(old(State()), h, kew) && history == old(history) + [State()]
    {
      artifacts := artifacts[h := kew];
      history := history + [State()];
    }

    /** Refuses a sequence number and kind already on file, and otherwise files the event in order. */
    method AppendEvent(h: Hash, e: Event) returns (r: Result<(), Error>)
      modifies this
      ensures r.Ok? ==> WithEvent(old(State()), h, e) == Ok(State()) && history == old(history) + [State()]
      ensures r.Err? ==> WithEvent(old(State()), h, e) == Err(r.error) && State() == old(State()) && history == old(history)
    {
      var log := ReadEvents(h);
      if exists j | 0 <= j < |log| :: log[j].seqNo == e.seqNo && log[j].kind == e.kind {
        return Err(EventExists(e.seqNo));
      }
      var i := Position(log, e);
      logs := logs[h := log[..i] + [e] + log[i..]];
      history := history + [State()];
      r := Ok(());
    }

    /** Overwrites. */
    method PutPointer(env: Text, tag: Text, p: Pointer)
      modifies this
      ensures State() == WithPointer(old(State()), env, tag, p) && history == old(history) + [State()]
    {
      tags := tags[(env, tag) := p];
      history := history + [State()];
    }

    /** Written once. */
    method PutConsistency(h: Hash, block: ConsistencyBlock) returns (r: Result<(), Error>)
      modifies this
      ensures r.Ok? ==> WithConsistency(old(State()), h, block) == Ok(State()) && history == old(history) + [State()]
      ensures r.Err? ==> WithConsistency(old(State()), h, block) == Err(r.error) && State() == old(State()) && history == old(history)
    {
      if h in consistency {
        return Err(SidecarExists);
      }
      consistency := consistency[h := block];
      history := history + [State()];
      r := Ok(());
    }

    /** Written once. */
    method PutRevocation(h: Hash, record: RevocationRecord) returns (r: Result<(), Error>)
      modifies this
      ensures r.Ok? ==> WithRevocation(old(State()), h, record) == Ok(State()) && history == old(history) + [State()]
      ensures r.Err? ==> WithRevocation(old(State()), h, record) == Err(r.error) && State() == old(State()) && history == old(history)
    {
      if h in revocations {
        return Err(SidecarExists);
      }
      revocations := revocations[h := record];
      history := history + [State()];
      r := Ok(());
    }

    method ReadEvents(h: Hash) returns (log: seq<Event>)
      ensures log == Log(State(), h)
    {
      log := if h in logs then logs[h] else [];
    }

    /** The validated current state. */
    method RequireCurrentState(w: World, h: Hash) returns (r: Result<LifecycleState, Error>)
      ensures r == Standing(w, State(), h)
    {
      var log := ReadEvents(h);
      var walked := WalkLog(RegistryChain(w), log);
      match walked
      case Err(e) => r := Err(BadLog(e));
      case Ok(None) => r := Err(NoState);
      case Ok(Some(state)) => r := Ok(state);
    }

    method HeadEvent(w: World, h: Hash) returns (r: Result<Event, Error>)
      ensures r == Head(w, State(), h)
    {
      var log := ReadEvents(h);
      var walked := WalkLog(RegistryChain(w), log);
      if walked.Err? {
        return Err(BadLog(walked.error));
      }
      if log == [] {
        return Err(NoState);
      }
      r := Ok(log[|log| - 1]);
    }

    method ReadArtifact(w: World, h: Hash) returns (r: Result<Artifact, Error>)
      ensures r == Stored(w, State(), h)
    {
      if h !in artifacts {
        return Err(NotFound);
      }
      var decoded := Artifacts.Decode(w.profile, artifacts[h]);
      match decoded
      case Err(e) => r := Err(ArtifactDecode(e));
      case Ok((a, _)) => r := Ok(a);
    }

    /** The last state, re-derived. */
    method Rederive(w: World, h: Hash) returns (r: Result<Report, Error>)
      ensures r == Reported(w, State(), h)
    {
      var state := RequireCurrentState(w, h);
      match state
      case Err(e) => r := Err(e);
      case Ok(s) => r := Ok(Report(h, s));
    }

    /** Chains one event onto the validated head and appends it. */
    method AppendNext(w: World, h: Hash, to: LifecycleState, kind: Text, now: u64) returns (r: Result<Event, Error>)
      modifies this
      ensures r.Ok? ==> Advance(w, old(State()), h, to, kind, now) == Ok((State(), r.value)) && history == old(history) + [State()]
      ensures r.Err? ==> Advance(w, old(State()), h, to, kind, now) == Err(r.error) && State() == old(State()) && history == old(history)
    {
      var prior := HeadEvent(w, h);
      if prior.Err? {
        return Err(prior.error);
      }
      var event := NextEvent(w, prior.value, to, kind, ROOT_KEY_ID, h, now);
      if event.Err? {
        return Err(event.error);
      }
      var appended := AppendEvent(h, event.value);
      match appended
      case Err(e) => r := Err(e);
      case Ok(_) => r := Ok(event.value);
    }

    /** What a command did: its result, its writes in order, and the registry it left. */
    ghost predicate Did(t: Trace, r: Result<Report, Error>, before: Reg, past: seq<Reg>)
      reads this
    {
      r == t.result && history == past + t.states && State() == Final(before, t)
    }

    method Compile(w: World, manifest: Manifest, payload: Payload, audit: AuditVersions, blocking: bool, now: u64)
      returns (r: Result<Report, Error>)
      modifies this
      ensures Did(CompileTrace(w, old(State()), manifest, payload, audit, blocking, now), r, old(State()), old(history))
    {
      if payload.Rules? && blocking {
        return Err(BlockingFindings);
      }
      var assembled := Artifacts.AssemblePayload(
        w.suite, w.profile, manifest.(kind := CompiledKind(payload)), payload, audit, w.compilerKey, COMPILER_KEY_ID);
      match assembled
      case Err(e) => r := Err(AssembleFailed(e));
      case Ok((a, kew)) => r := StoreAndRecord(w, a.manifest.hash, kew, CompilerGate(w, kew), now);
    }

    method StoreAndRecord(w: World, h: Hash, kew: bytes, gate: Preconditions, now: u64) returns (r: Result<Report, Error>)
      modifies this
      ensures Did(StoreTrace(w, old(State()), h, kew, gate, now), r, old(State()), old(history))
    {
      PutArtifact(h, kew);
      ghost var s1 := State();
      var draft := DraftEvent(w, h, now);
      r := RecordDraft(w, h, draft, gate, now);
      FinalThen(old(State()), s1, DraftTrace(w, s1, h, draft, gate, now), old(history));
    }

    method RecordDraft(w: World, h: Hash, draft: Event, gate: Preconditions, now: u64) returns (r: Result<Report, Error>)
      requires draft.seqNo == 0
      modifies this
      ensures Did(DraftTrace(w, old(State()), h, draft, gate, now), r, old(State()), old(history))
    {
      var appended := AppendEvent(h, draft);
      if appended.Err? {
        return Err(appended.error);
      }
      r := RecordVerified(w, h, draft, gate, now);
    }

    method RecordVerified(w: World, h: Hash, draft: Event, gate: Preconditions, now: u64) returns (r: Result<Report, Error>)
      requires draft.seqNo == 0
      modifies this
      ensures Did(VerifiedTrace(w, old(State()), h, draft, gate, now), r, old(State()), old(history))
    {
      if CanTransition(Draft, StructurallyVerified, gate) {
        var event := NextEvent(w, draft, StructurallyVerified, EventKind(StructurallyVerified), COMPILER_KEY_ID, h, now);
        var appended := AppendEvent(h, event.value);
        if appended.Err? {
          return Err(appended.error);
        }
      }
      r := Rederive(w, h);
    }

    method MlCheck(w: World, h: Hash, now: u64) returns (r: Result<Report, Error>)
      modifies this
      ensures Did(MlCheckTrace(w, old(State()), h, now), r, old(State()), old(history))
    {
      var state := RequireCurrentState(w, h);
      if state.Err? {
        return Err(state.error);
      }
      if state.value != StructurallyVerified {
        return Err(WrongState(state.value));
      }
      var put := PutConsistency(h, DevStandIn(now));
      if put.Err? {
        return Err(put.error);
      }
      if !CanTransition(StructurallyVerified, MlChecked, NOTHING.(consistencyBlockPresent := h in consistency)) {
        return Err(TransitionRefused);
      }
      var event := AppendNext(w, h, MlChecked, EventKind(MlChecked), now);
      if event.Err? {
        return Err(event.error);
      }
      r := Rederive(w, h);
    }

    method Attest(w: World, h: Hash, types: Claims, now: u64) returns (r: Result<Report, Error>)
      modifies this
      ensures Did(AttestTrace(w, old(State()), h, types, now), r, old(State()), old(history))
    {
      if types == [] {
        return Err(NoTypes);
      }
      var state := RequireCurrentState(w, h);
      if state.Err? {
        return Err(state.error);
      }
      if state.value != MlChecked {
        return Err(WrongState(state.value));
      }
      var stored := ReadArtifact(w, h);
      if stored.Err? {
        return Err(stored.error);
      }
      var attestations := SignEach(w, stored.value.manifest, types, now);
      r := Rewrite(w, h, stored.value, attestations, now);
    }

    method Rewrite(w: World, h: Hash, a: Artifact, attestations: Records.Attestations, now: u64) returns (r: Result<Report, Error>)
      modifies this
      ensures Did(RewriteTrace(w, old(State()), h, a, attestations, now), r, old(State()), old(history))
    {
      var (attested, kew) := Artifacts.WithAttestations(a, attestations);
      var rejections := Gate(w, attested, PERMISSIVE, now);
      r := FileAttested(w, h, a.manifest.hash, kew, rejections, now);
    }

    /** The bytes are filed whatever the gate says. */
    method FileAttested(w: World, h: Hash, address: Hash, kew: bytes, rejections: seq<Rejection>, now: u64)
      returns (r: Result<Report, Error>)
      modifies this
      ensures Did(FileTrace(w, old(State()), h, address, kew, rejections, now), r, old(State()), old(history))
    {
      PutArtifact(address, kew);
      r := RecordAttested(w, h, rejections, now);
    }

    method RecordAttested(w: World, h: Hash, rejections: seq<Rejection>, now: u64) returns (r: Result<Report, Error>)
      modifies this
      ensures Did(AttestedTrace(w, old(State()), h, rejections, now), r, old(State()), old(history))
    {
      if rejections != [] {
        return Err(AttestationSetRejected(rejections));
      }
      if !CanTransition(MlChecked, ExpertAttested, NOTHING.(attestationSetValid := true)) {
        return Err(TransitionRefused);
      }
      var event := AppendNext(w, h, ExpertAttested, EventKind(ExpertAttested), now);
      if event.Err? {
        return Err(event.error);
      }
      r := Rederive(w, h);
    }

    method Publish(w: World, h: Hash, env: Text, tag: Text, choice: PolicyChoice, now: u64) returns (r: Result<Report, Error>)
      modifies this
      ensures Did(PublishTrace(w, old(State()), h, env, tag, choice, now), r, old(State()), old(history))
    {
      var state := RequireCurrentState(w, h);
      if state.Err? {
        return Err(state.error);
      }
      if state.value != ExpertAttested {
        return Err(WrongState(state.value));
      }
      var stored := ReadArtifact(w, h);
      if stored.Err? {
        return Err(stored.error);
      }
      var a := stored.value;
      var policy := ResolvePolicy(choice, a.manifest.kind);
      if policy.Err? {
        return Err(policy.error);
      }
      var rejections := Gate(w, a, policy.value, now);
      r := PublishGated(w, h, rejections, env, tag, now);
    }

    method PublishGated(w: World, h: Hash, rejections: seq<Rejection>, env: Text, tag: Text, now: u64) returns (r: Result<Report, Error>)
      modifies this
      ensures Did(GatedTrace(w, old(State()), h, rejections, env, tag, now), r, old(State()), old(history))
    {
      if rejections != [] {
        return Err(AttestationSetRejected(rejections));
      }
      if !CanTransition(ExpertAttested, Published, NOTHING.(priorIsExpertAttested := true)) {
        return Err(TransitionRefused);
      }
      r := RecordAndPoint(w, h, env, tag, EventKind(Published), now);
    }

    /** The shared tail of publishing and rolling back: the event, then the pointer to it. */
    method RecordAndPoint(w: World, h: Hash, env: Text, tag: Text, kind: Text, now: u64) returns (r: Result<Report, Error>)
      modifies this
      ensures Did(PointTrace(w, old(State()), h, env, tag, kind, now), r, old(State()), old(history))
    {
      var event := AppendNext(w, h, Published, kind, now);
      if event.Err? {
        return Err(event.error);
      }
      PutPointer(env, tag, Pointer(h, kind, event.value.seqNo));
      r := Rederive(w, h);
    }

    method Deprecate(w: World, h: Hash, now: u64) returns (r: Result<Report, Error>)
      modifies this
      ensures Did(DeprecateTrace(w, old(State()), h, now), r, old(State()), old(history))
    {
      var state := RequireCurrentState(w, h);
      if state.Err? {
        return Err(state.error);
      }
      if state.value != Published {
        return Err(WrongState(state.value));
      }
      if !CanTransition(Published, Deprecated, NOTHING) {
        return Err(TransitionRefused);
      }
      var event := AppendNext(w, h, Deprecated, EventKind(Deprecated), now);
      if event.Err? {
        return Err(event.error);
      }
      r := Rederive(w, h);
    }

    method Revoke(w: World, h: Hash, recorded: Option<RevocationPolicy>, class_: Option<ReasonClass>, reason: Option<Text>, now: u64)
      returns (r: Result<Report, Error>)
      modifies this
      ensures Did(RevokeTrace(w, old(State()), h, recorded, class_, reason, now), r, old(State()), old(history))
    {
      var policy := RecordedPolicy(recorded, class_);
      if policy.Err? {
        return Err(policy.error);
      }
      var state := RequireCurrentState(w, h);
      if state.Err? {
        return Err(state.error);
      }
      if state.value != Published && state.value != Deprecated {
        return Err(WrongState(state.value));
      }
      if !CanTransition(state.value, Revoked, NOTHING) {
        return Err(TransitionRefused);
      }
      r := RecordRevoked(w, h, policy.value, class_, reason, now);
    }

    method RecordRevoked(w: World, h: Hash, policy: RevocationPolicy, class_: Option<ReasonClass>, reason: Option<Text>, now: u64)
      returns (r: Result<Report, Error>)
      modifies this
      ensures Did(RecordTrace(w, old(State()), h, policy, class_, reason, now), r, old(State()), old(history))
    {
      var event := AppendNext(w, h, Revoked, EventKind(Revoked), now);
      if event.Err? {
        return Err(event.error);
      }
      ghost var s1 := State();
      var record := RevocationRecord(policy, reason, event.value.seqNo, policy.AuditOnly?, class_);
      r := NoteRevocation(w, h, record);
      FinalThen(old(State()), s1, NoteTrace(w, s1, h, record), old(history));
    }

    method NoteRevocation(w: World, h: Hash, record: RevocationRecord) returns (r: Result<Report, Error>)
      modifies this
      ensures Did(NoteTrace(w, old(State()), h, record), r, old(State()), old(history))
    {
      var put := PutRevocation(h, record);
      if put.Err? {
        return Err(put.error);
      }
      r := Rederive(w, h);
    }

    method Rollback(w: World, env: Text, tag: Text, h: Hash, now: u64) returns (r: Result<Report, Error>)
      modifies this
      ensures Did(RollbackTrace(w, old(State()), env, tag, h, now), r, old(State()), old(history))
    {
      var state := RequireCurrentState(w, h);
      if state.Err? {
        return Err(state.error);
      }
      if state.value != Published {
        return Err(RollbackIneligible(state.value));
      }
      r := RecordAndPoint(w, h, env, tag, TAG_MOVED, now);
    }
  }

  /** Where an event belongs in a log kept in sequence order. */
  method Position(log: seq<Event>, e: Event) returns (i: nat)
    ensures i <= |log| && Insert(log, e) == log[..i] + [e] + log[i..]
  {
    i := |log|;
    assert log[..i] == log && log[i..] == [];
    while i > 0 && log[i - 1].seqNo > e.seqNo
      invariant 0 <= i <= |log|
      invariant Insert(log, e) == Insert(log[..i], e) + log[i..]
    {
      i := i - 1;
      assert log[..i + 1][..i] == log[..i] && log[..i + 1][i] == log[i];
      assert log[i..] == [log[i]] + log[i + 1..];
    }
    assert Insert(log[..i], e) == log[..i] + [e];
  }

  /** The attestation gate under the local checker. */
  method Gate(w: World, a: Artifact, policy: Policy, now: u64) returns (rejections: seq<Rejection>)
    ensures rejections == LocalRejections(w, a, policy, now)
  {
    rejections := VerifySet(LocalChecker(w, a.manifest, now), policy, a.attestations);
  }

  /** One signed attestation per requested type, in order. */
  method SignEach(w: World, m: Manifest, types: Claims, now: u64) returns (attestations: Records.Attestations)
    ensures attestations == ExpertAttestations(w, m, types, now)
  {
    var signed: seq<Attestation> := [];
    for i := 0 to |types|
      invariant |signed| == i && forall j | 0 <= j < i :: signed[j] == ExpertAttestation(w, m, types[j], now)
    {
      signed := signed + [ExpertAttestation(w, m, types[i], now)];
    }
    attestations := signed;
  }
}
