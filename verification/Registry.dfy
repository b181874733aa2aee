/**
 The local registry: five stores, their overwrite and refuse rules, and the seven lifecycle commands.

 Each command is a method over the backend, proved against a value-level account of it: the registry after each
 of its writes, in order, and what it returns. A command that stops between two writes leaves one of those states.
 */
module Registry {
  import opened Wrappers
  import opened Wire
  import opened Crypto
  import opened Records
  import opened Attestations
  import opened Events
  import Artifacts

  // ---- the world the commands run in ----

  /** The primitives, the canonical profile, and the four fixed secret keys. */
  datatype World = World(
    suite: Suite, profile: Artifacts.Profile, compilerKey: bytes, expertKey: bytes, tsaKey: bytes, rootKey: bytes)

  ghost predicate Honest(w: World) {
    Sound(w.suite) && Artifacts.Faithful(w.profile)
  }

  function RegistryChain(w: World): Chain {
    ChainOf(w.suite, w.suite.publicOf(w.rootKey))
  }

  const COMPILER_KEY_ID: Text := Ascii("test-fixed-seed-1")
  const EXPERT_KEY_ID: Text := Ascii("test-expert-fixed-seed-1")
  const ROOT_KEY_ID: Text := Ascii("test-registry-fixed-seed-1")
  const POLICY_VERSION: Text := Ascii("ap-1")
  const TEST_EXPERT: Text := Ascii("Test Expert")
  const TAG_MOVED: Text := Ascii("tag_moved")

  const U32_MAX: u32 := 0xFFFF_FFFF
  const U64_MAX: u64 := 0xFFFF_FFFF_FFFF_FFFF

  function EventKind(s: LifecycleState): Text {
    match s
    case Draft => Ascii("draft")
    case StructurallyVerified => Ascii("structurally_verified")
    case MlChecked => Ascii("ml_checked")
    case ExpertAttested => Ascii("expert_attested")
    case Published => Ascii("published")
    case Deprecated => Ascii("deprecated")
    case Revoked => Ascii("revoked")
  }

  // ---- the transition table ----

  datatype Preconditions = Preconditions(
    structuralClean: bool, compilerSignatureValid: bool, consistencyBlockPresent: bool, attestationSetValid: bool,
    priorIsExpertAttested: bool)

  const NOTHING := Preconditions(false, false, false, false, false)

  function CanTransition(from: LifecycleState, to: LifecycleState, pre: Preconditions): bool {
    match (from, to)
    case (Draft, StructurallyVerified) => pre.structuralClean && pre.compilerSignatureValid
    case (StructurallyVerified, MlChecked) => pre.consistencyBlockPresent
    case (MlChecked, ExpertAttested) => pre.attestationSetValid
    case (ExpertAttested, Published) => pre.priorIsExpertAttested
    case (Published, Deprecated) => true
    case (Published, Revoked) => true
    case (Deprecated, Revoked) => true
    case _ => false
  }

  // ---- revocation policies ----

  datatype RevocationPolicy = HardStop | FinishPinned | AuditOnly

  datatype ReasonClass = KeyCompromise | LegalInvalidity | RoutineSupersession | Advisory

  function Floor(class_: ReasonClass): RevocationPolicy {
    match class_
    case KeyCompromise => HardStop
    case LegalInvalidity => HardStop
    case RoutineSupersession => FinishPinned
    case Advisory => AuditOnly
  }

  function Strictness(p: RevocationPolicy): nat {
    match p case HardStop => 2 case FinishPinned => 1 case AuditOnly => 0
  }

  /** The policy a revocation records: never below the floor of a stated reason, and never a guess. */
  function RecordedPolicy(policy: Option<RevocationPolicy>, class_: Option<ReasonClass>): (r: Result<RevocationPolicy, Error>)
    ensures r.Ok? && class_.Some? ==> Strictness(r.value) >= Strictness(Floor(class_.value))
    ensures r.Ok? && policy.Some? ==> r.value == policy.value
    ensures r.Err? <==> (policy.None? && class_.None?) ||
                        (policy.Some? && class_.Some? && Strictness(policy.value) < Strictness(Floor(class_.value)))
  {
    match (policy, class_)
    case (Some(p), None) => Ok(p)
    case (None, None) => Err(NoRevocationPolicy)
    case (None, Some(c)) => Ok(Floor(c))
    case (Some(p), Some(c)) =>
      if Strictness(p) < Strictness(Floor(c)) then Err(PolicyBelowFloor)
      else if Strictness(p) > Strictness(Floor(c)) then Ok(p)
      else Ok(Floor(c))
  }

  // ---- registry state ----

  datatype Pointer = Pointer(target: Hash, eventKind: Text, eventSeq: u32)

  datatype RevocationRecord = RevocationRecord(
    policy: RevocationPolicy, reason: Option<Text>, eventSeq: u32, highSeverity: bool, reasonClass: Option<ReasonClass>)

  /** The dev stand-in consistency block; only its time varies. */
  datatype ConsistencyBlock = DevStandIn(checkedAt: u64)

  /** The stores. A log is kept in sequence order. */
  datatype Reg = Reg(
    artifacts: map<Hash, bytes>, logs: map<Hash, seq<Event>>, tags: map<(Text, Text), Pointer>,
    consistency: map<Hash, ConsistencyBlock>, revocations: map<Hash, RevocationRecord>)

  const EMPTY := Reg(map[], map[], map[], map[], map[])

  datatype Error =
    | BadLog(fault: LogError)
    | NoState
    | WrongState(found: LifecycleState)
    | TransitionRefused
    | EventExists(seqNo: u32)
    | SequenceExhausted
    | SidecarExists
    | NotFound
    | ArtifactDecode(decode: Artifacts.Error)
    | AssembleFailed(assemble: Artifacts.Error)
    | BlockingFindings
    | NoTypes
    | AttestationSetRejected(rejections: seq<Rejection>)
    | PolicyLoad
    | RollbackIneligible(found: LifecycleState)
    | NoRevocationPolicy
    | PolicyBelowFloor
    | Ambiguous(count: nat)
    | ResolvedHashMismatch

  function Log(s: Reg, h: Hash): seq<Event> {
    if h in s.logs then s.logs[h] else []
  }

  /** Into sequence order, after the events of the same number. */
  function Insert(log: seq<Event>, e: Event): seq<Event> {
    if log == [] || log[|log| - 1].seqNo <= e.seqNo then log + [e]
    else Insert(log[..|log| - 1], e) + [log[|log| - 1]]
  }

  /** One file per sequence number and kind; an existing one is never replaced. */
  predicate Occupied(log: seq<Event>, e: Event) {
    exists i | 0 <= i < |log| :: log[i].seqNo == e.seqNo && log[i].kind == e.kind
  }

  // ---- the writes, on values ----

  function WithArtifact(s: Reg, h: Hash, kew: bytes): Reg {
    s.(artifacts := s.artifacts[h := kew])
  }

  function WithEvent(s: Reg, h: Hash, e: Event): Result<Reg, Error> {
    if Occupied(Log(s, h), e) then Err(EventExists(e.seqNo))
    else Ok(s.(logs := s.logs[h := Insert(Log(s, h), e)]))
  }

  function WithPointer(s: Reg, env: Text, tag: Text, p: Pointer): Reg {
    s.(tags := s.tags[(env, tag) := p])
  }

  function WithConsistency(s: Reg, h: Hash, block: ConsistencyBlock): Result<Reg, Error> {
    if h in s.consistency then Err(SidecarExists) else Ok(s.(consistency := s.consistency[h := block]))
  }

  function WithRevocation(s: Reg, h: Hash, record: RevocationRecord): Result<Reg, Error> {
    if h in s.revocations then Err(SidecarExists) else Ok(s.(revocations := s.revocations[h := record]))
  }

  // ---- reading state ----

  function Standing(w: World, s: Reg, h: Hash): Result<LifecycleState, Error> {
    match CurrentState(RegistryChain(w), Log(s, h))
    case Err(e) => Err(BadLog(e))
    case Ok(None) => Err(NoState)
    case Ok(Some(state)) => Ok(state)
  }

  function Head(w: World, s: Reg, h: Hash): (r: Result<Event, Error>)
    ensures r.Ok? ==> Log(s, h) != [] && r.value == Log(s, h)[|Log(s, h)| - 1]
  {
    match CurrentState(RegistryChain(w), Log(s, h))
    case Err(e) => Err(BadLog(e))
    case Ok(_) => if Log(s, h) == [] then Err(NoState) else Ok(Log(s, h)[|Log(s, h)| - 1])
  }

  // ---- building events ----

  function DraftEvent(w: World, h: Hash, now: u64): Event {
    SignEvent(w.suite, w.rootKey, Event(
      h, 0, None, Draft, EventKind(Draft), ROOT_KEY_ID, SignerRole.Registry, Stamp(w.suite, w.tsaKey, h, now), None, ZERO_SIG))
  }

  /** Chained onto `prior`. A tag move keeps the state and has a kind of its own. */
  function NextEvent(w: World, prior: Event, to: LifecycleState, kind: Text, authority: Text, stamped: Hash, now: u64)
    : Result<Event, Error>
  {
    if prior.seqNo == U32_MAX then Err(SequenceExhausted)
    else Ok(SignEvent(w.suite, w.rootKey, Event(
      prior.artifactHash, prior.seqNo + 1, Some(prior.newState), to, kind, authority, SignerRole.Registry,
      Stamp(w.suite, w.tsaKey, stamped, now), Some(ChainHash(w.suite, prior)), ZERO_SIG)))
  }

  /** Chains one event onto the validated head and appends it. */
  function Advance(w: World, s: Reg, h: Hash, to: LifecycleState, kind: Text, now: u64): Result<(Reg, Event), Error> {
    match Head(w, s, h)
    case Err(e) => Err(e)
    case Ok(prior) =>
      match NextEvent(w, prior, to, kind, ROOT_KEY_ID, h, now)
      case Err(e) => Err(e)
      case Ok(event) =>
        match WithEvent(s, h, event)
        case Err(e) => Err(e)
        case Ok(s) => Ok((s, event))
  }

  // ---- keys and policies the commands use ----

  const ALL_TYPES := [SourceFidelity, Interpretation, ScenarioCoverage, EquivalenceClaim, PublicationApproval]

  function ExpertEntry(w: World, types: seq<AttestationType>): KeyEntry {
    KeyEntry(EXPERT_KEY_ID, w.suite.publicOf(w.expertKey), [DomainExpert, PublicationApprover], types, 0, U64_MAX, Active)
  }

  function LocalChecker(w: World, m: Manifest, now: u64): Checker {
    Checker(w.suite, w.suite.publicOf(w.tsaKey), m.hash, m, [ExpertEntry(w, ALL_TYPES)],
            Context(LOCAL, now, [POLICY_VERSION], None))
  }

  function LocalRejections(w: World, a: Artifact, policy: Policy, now: u64): seq<Rejection> {
    SetRejections(Checks(LocalChecker(w, a.manifest, now)), a.manifest.kind, policy, a.attestations)
  }

  const PERMISSIVE := Policy([], [])

  function Strict(required: seq<AttestationType>): Policy {
    Policy(required, seq(|required|, i requires 0 <= i < |required| => (required[i], 1)))
  }

  function PolicyForKind(kind: ArtifactKind): Policy {
    if kind.IntentSpec? then Strict([SourceFidelity, PublicationApproval])
    else Strict([SourceFidelity, ScenarioCoverage, PublicationApproval])
  }

  datatype PolicyChoice = BuiltIn | Bundle(policy: Policy) | Unreadable

  function ResolvePolicy(choice: PolicyChoice, kind: ArtifactKind): Result<Policy, Error> {
    match choice
    case BuiltIn => Ok(PolicyForKind(kind))
    case Bundle(policy) => Ok(policy)
    case Unreadable => Err(PolicyLoad)
  }

  // ---- the commands, on values ----

  datatype Report = Report(hash: Hash, state: LifecycleState)

  /** The registry after each write, oldest first, and the command's result. */
  datatype Trace = Trace(states: seq<Reg>, result: Result<Report, Error>)

  type Claims = s: seq<AttestationType> | |s| < LEN_LIMIT

  datatype Command =
    | Compile(manifest: Manifest, payload: Payload, audit: AuditVersions, blocking: bool, now: u64)
    | MlCheck(h: Hash, now: u64)
    | Attest(h: Hash, types: Claims, now: u64)
    | Publish(h: Hash, env: Text, tag: Text, policy: PolicyChoice, now: u64)
    | Deprecate(h: Hash, now: u64)
    | Revoke(h: Hash, recorded: Option<RevocationPolicy>, reasonClass: Option<ReasonClass>, reason: Option<Text>, now: u64)
    | Rollback(env: Text, tag: Text, h: Hash, now: u64)

  /** A command re-derives its final state from the log. */
  function Reported(w: World, s: Reg, h: Hash): Result<Report, Error> {
    match Standing(w, s, h)
    case Err(e) => Err(e)
    case Ok(state) => Ok(Report(h, state))
  }

  function Fail(states: seq<Reg>, e: Error): Trace {
    Trace(states, Err(e))
  }

  /** A rule pack or an intent spec; the payload fixes the kind. */
  function CompiledKind(payload: Payload): ArtifactKind {
    if payload.Rules? then RegimePack else ArtifactKind.IntentSpec
  }

  function Compiled(w: World, m: Manifest, payload: Payload, audit: AuditVersions): Result<(Artifact, bytes), Artifacts.Error> {
    Artifacts.Assemble(w.suite, w.profile, m.(kind := CompiledKind(payload)), payload, audit, w.compilerKey, COMPILER_KEY_ID)
  }

  function CompileTrace(w: World, s: Reg, m: Manifest, payload: Payload, audit: AuditVersions, blocking: bool, now: u64): Trace {
    if payload.Rules? && blocking then Fail([], BlockingFindings)
    else
      match Compiled(w, m, payload, audit)
      case Err(e) => Fail([], AssembleFailed(e))
      case Ok((a, kew)) => StoreTrace(w, s, a.manifest.hash, kew, CompilerGate(w, kew), now)
  }

  function CompilerGate(w: World, kew: bytes): Preconditions {
    NOTHING.(
    structuralClean := true,
    compilerSignatureValid :=
      Artifacts.VerifyHash(w.suite, w.profile, kew).Ok? && CompilerSignatureValid(w, kew))
  }

  function CompilerSignatureValid(w: World, kew: bytes): bool {
    match Artifacts.Decode(w.profile, kew)
    case Err(_) => false
    case Ok((a, envelopeLen)) =>
      Artifacts.SignatureHolds(w.suite, w.suite.publicOf(w.compilerKey), kew[..envelopeLen], a.compilerSignature)
  }

  /** One write, then the rest. */
  function Then(s1: Reg, t: Trace): Trace {
    Trace([s1] + t.states, t.result)
  }

  function StoreTrace(w: World, s: Reg, h: Hash, kew: bytes, gate: Preconditions, now: u64): Trace {
    var s1 := WithArtifact(s, h, kew);
    Then(s1, DraftTrace(w, s1, h, DraftEvent(w, h, now), gate, now))
  }

  function DraftTrace(w: World, s: Reg, h: Hash, draft: Event, gate: Preconditions, now: u64): Trace {
    match WithEvent(s, h, draft)
    case Err(e) => Fail([], e)
    case Ok(s1) => Then(s1, VerifiedTrace(w, s1, h, draft, gate, now))
  }

  /** What follows the draft event. */
  function VerifiedTrace(w: World, s: Reg, h: Hash, draft: Event, gate: Preconditions, now: u64): Trace {
    if !CanTransition(Draft, StructurallyVerified, gate) then Trace([], Reported(w, s, h))
    else
      match NextEvent(w, draft, StructurallyVerified, EventKind(StructurallyVerified), COMPILER_KEY_ID, h, now)
      case Err(e) => Fail([], e)
      case Ok(event) =>
        match WithEvent(s, h, event)
        case Err(e) => Fail([], e)
        case Ok(s) => Trace([s], Reported(w, s, h))
  }

  function MlCheckTrace(w: World, s: Reg, h: Hash, now: u64): Trace {
    match Standing(w, s, h)
    case Err(e) => Fail([], e)
    case Ok(state) =>
      if state != StructurallyVerified then Fail([], WrongState(state))
      else
        match WithConsistency(s, h, DevStandIn(now))
        case Err(e) => Fail([], e)
        case Ok(s1) =>
          if !CanTransition(StructurallyVerified, MlChecked, NOTHING.(consistencyBlockPresent := h in s1.consistency)) then
            Fail([s1], TransitionRefused)
          else
            match Advance(w, s1, h, MlChecked, EventKind(MlChecked), now)
            case Err(e) => Fail([s1], e)
            case Ok((s2, _)) => Trace([s1, s2], Reported(w, s2, h))
  }

  function RoleFor(t: AttestationType): SignerRole {
    if t.PublicationApproval? then PublicationApprover else DomainExpert
  }

  function ExpertAttestation(w: World, m: Manifest, t: AttestationType, now: u64): Attestation {
    SignAttestation(w.suite, w.expertKey, Attestation(
      m.hash, WholeArtifact, t, TEST_EXPERT, EXPERT_KEY_ID, RoleFor(t), m.regimeId, m.effectiveFrom, m.effectiveTo,
      m.sourceCorpusHash, m.irSchemaVersion, m.compilerVersion, POLICY_VERSION, None, Stamp(w.suite, w.tsaKey, m.hash, now),
      None, None, ZERO_SIG))
  }

  function ExpertAttestations(w: World, m: Manifest, types: Claims, now: u64): Records.Attestations {
    seq(|types|, i requires 0 <= i < |types| => ExpertAttestation(w, m, types[i], now))
  }

  /** The stored record, decoded. */
  function Stored(w: World, s: Reg, h: Hash): Result<Artifact, Error> {
    if h !in s.artifacts then Err(NotFound)
    else
      match Artifacts.Decode(w.profile, s.artifacts[h])
      case Err(e) => Err(ArtifactDecode(e))
      case Ok((a, _)) => Ok(a)
  }

  /** The bytes are re-written before the gate is evaluated. */
  function AttestTrace(w: World, s: Reg, h: Hash, types: Claims, now: u64): Trace {
    if types == [] then Fail([], NoTypes)
    else
      match Standing(w, s, h)
      case Err(e) => Fail([], e)
      case Ok(state) =>
        if state != MlChecked then Fail([], WrongState(state))
        else
          match Stored(w, s, h)
          case Err(e) => Fail([], e)
          case Ok(a) => RewriteTrace(w, s, h, a, ExpertAttestations(w, a.manifest, types, now), now)
  }

  /** Filed under the record's own address. */
  function RewriteTrace(w: World, s: Reg, h: Hash, a: Artifact, attestations: Records.Attestations, now: u64): Trace {
    var (attested, kew) := Artifacts.WithAttestations(a, attestations);
    FileTrace(w, s, h, a.manifest.hash, kew, LocalRejections(w, attested, PERMISSIVE, now), now)
  }

  function FileTrace(w: World, s: Reg, h: Hash, address: Hash, kew: bytes, rejections: seq<Rejection>, now: u64): Trace {
    var s1 := WithArtifact(s, address, kew);
    Then(s1, AttestedTrace(w, s1, h, rejections, now))
  }

  function AttestedTrace(w: World, s: Reg, h: Hash, rejections: seq<Rejection>, now: u64): Trace {
    if rejections != [] then Fail([], AttestationSetRejected(rejections))
    else if !CanTransition(MlChecked, ExpertAttested, NOTHING.(attestationSetValid := true)) then Fail([], TransitionRefused)
    else
      match Advance(w, s, h, ExpertAttested, EventKind(ExpertAttested), now)
      case Err(e) => Fail([], e)
      case Ok((s, _)) => Trace([s], Reported(w, s, h))
  }

  function PublishTrace(w: World, s: Reg, h: Hash, env: Text, tag: Text, choice: PolicyChoice, now: u64): Trace {
    match Standing(w, s, h)
    case Err(e) => Fail([], e)
    case Ok(state) =>
      if state != ExpertAttested then Fail([], WrongState(state))
      else
        match Stored(w, s, h)
        case Err(e) => Fail([], e)
        case Ok(a) =>
          match ResolvePolicy(choice, a.manifest.kind)
          case Err(e) => Fail([], e)
          case Ok(policy) =>
            GatedTrace(w, s, h, LocalRejections(w, a, policy, now), env, tag, now)
  }

  function GatedTrace(w: World, s: Reg, h: Hash, rejections: seq<Rejection>, env: Text, tag: Text, now: u64): Trace {
    if rejections != [] then Fail([], AttestationSetRejected(rejections))
    else if !CanTransition(ExpertAttested, Published, NOTHING.(priorIsExpertAttested := true)) then Fail([], TransitionRefused)
    else PointTrace(w, s, h, env, tag, EventKind(Published), now)
  }

  /** An event that leaves the artifact Published, then the tag pointer. */
  function PointTrace(w: World, s: Reg, h: Hash, env: Text, tag: Text, kind: Text, now: u64): Trace {
    match Advance(w, s, h, Published, kind, now)
    case Err(e) => Fail([], e)
    case Ok((s1, event)) =>
      var s2 := WithPointer(s1, env, tag, Pointer(h, kind, event.seqNo));
      Trace([s1, s2], Reported(w, s2, h))
  }

  function DeprecateTrace(w: World, s: Reg, h: Hash, now: u64): Trace {
    match Standing(w, s, h)
    case Err(e) => Fail([], e)
    case Ok(state) =>
      if state != Published then Fail([], WrongState(state))
      else if !CanTransition(Published, Deprecated, NOTHING) then Fail([], TransitionRefused)
      else
        match Advance(w, s, h, Deprecated, EventKind(Deprecated), now)
        case Err(e) => Fail([], e)
        case Ok((s1, _)) => Trace([s1], Reported(w, s1, h))
  }

  function RevokeTrace(
    w: World, s: Reg, h: Hash, recorded: Option<RevocationPolicy>, class_: Option<ReasonClass>, reason: Option<Text>, now: u64): Trace
  {
    match RecordedPolicy(recorded, class_)
    case Err(e) => Fail([], e)
    case Ok(policy) =>
      match Standing(w, s, h)
      case Err(e) => Fail([], e)
      case Ok(state) =>
        if state != Published && state != Deprecated then Fail([], WrongState(state))
        else if !CanTransition(state, Revoked, NOTHING) then Fail([], TransitionRefused)
        else RecordTrace(w, s, h, policy, class_, reason, now)
  }

  /** The event, then the record of what was decided. */
  function RecordTrace(w: World, s: Reg, h: Hash, policy: RevocationPolicy, class_: Option<ReasonClass>, reason: Option<Text>, now: u64)
    : Trace
  {
    match Advance(w, s, h, Revoked, EventKind(Revoked), now)
    case Err(e) => Fail([], e)
    case Ok((s1, event)) => Then(s1, NoteTrace(w, s1, h, RevocationRecord(policy, reason, event.seqNo, policy.AuditOnly?, class_)))
  }

  function NoteTrace(w: World, s: Reg, h: Hash, record: RevocationRecord): Trace {
    match WithRevocation(s, h, record)
    case Err(e) => Fail([], e)
    case Ok(s) => Trace([s], Reported(w, s, h))
  }

  function RollbackTrace(w: World, s: Reg, env: Text, tag: Text, h: Hash, now: u64): Trace {
    match Standing(w, s, h)
    case Err(e) => Fail([], e)
    case Ok(state) =>
      if state != Published then Fail([], RollbackIneligible(state))
      else PointTrace(w, s, h, env, tag, TAG_MOVED, now)
  }

  function TraceOf(w: World, s: Reg, c: Command): Trace {
    match c
    case Compile(m, payload, audit, blocking, now) => CompileTrace(w, s, m, payload, audit, blocking, now)
    case MlCheck(h, now) => MlCheckTrace(w, s, h, now)
    case Attest(h, types, now) => AttestTrace(w, s, h, types, now)
    case Publish(h, env, tag, policy, now) => PublishTrace(w, s, h, env, tag, policy, now)
    case Deprecate(h, now) => DeprecateTrace(w, s, h, now)
    case Revoke(h, recorded, class_, reason, now) => RevokeTrace(w, s, h, recorded, class_, reason, now)
    case Rollback(env, tag, h, now) => RollbackTrace(w, s, env, tag, h, now)
  }

  /** The registry a command leaves when it stops after at most `writes` of its writes. */
  function After(s: Reg, t: Trace, writes: nat): Reg {
    var n := if writes < |t.states| then writes else |t.states|;
    if n == 0 then s else t.states[n - 1]
  }

  function Final(s: Reg, t: Trace): Reg {
    After(s, t, |t.states|)
  }

  lemma FinalThen(s: Reg, s1: Reg, t: Trace, past: seq<Reg>)
    ensures Final(s, Then(s1, t)) == Final(s1, t) && past + Then(s1, t).states == past + [s1] + t.states
  {
  }
}
