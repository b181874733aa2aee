/**
 Who may consume an artifact: registry evidence, the fail-closed admission of the graph export, and what a run of
 the commands guarantees about it.
 */
module Admission {
  import opened Wrappers
  import opened Wire
  import opened Crypto
  import opened Records
  import opened Attestations
  import opened Events
  import opened Verification
  import opened Registry
  import opened Lifecycle
  import opened Runs
  import opened Reach
  import Artifacts

  // ---- registry evidence ----

  function StatusFor(s: LifecycleState): RegistryStatus {
    match s
    case Published => Authoritative
    case Deprecated => Superseded
    case Revoked => RegistryStatus.Withdrawn
    case _ => Unknown
  }

  /** The status and the head's chain hash; no log is unknown with a zero head. */
  function ReadEvidence(w: World, s: Reg, h: Hash): Result<Evidence, Registry.Error> {
    match CurrentState(RegistryChain(w), Log(s, h))
    case Err(e) => Err(BadLog(e))
    case Ok(None) => Ok(Evidence(Unknown, ZERO_HASH, None))
    case Ok(Some(state)) =>
      match Head(w, s, h)
      case Err(e) => Err(e)
      case Ok(head) => Ok(Evidence(StatusFor(state), ChainHash(w.suite, head), None))
  }

  lemma EvidenceIs(w: World, s: Reg, h: Hash)
    requires Log(s, h) != [] && ReadEvidence(w, s, h).Ok?
    ensures var log := Log(s, h); var last := log[|log| - 1];
            ValidLog(RegistryChain(w), log) &&
            ReadEvidence(w, s, h) == Ok(Evidence(StatusFor(last.newState), ChainHash(w.suite, last), None))
  {
  }

  lemma VerifiedLive(t: Trust, context: Context, policy: Policy, kew: bytes, evidence: Evidence)
    requires Verify(t, context, policy, kew, evidence).None?
    ensures evidence.status.Authoritative? && (evidence.liveHead.Some? ==> evidence.liveHead.value == evidence.eventHead)
  {
  }

  /**
   A verified verdict against a live head of a valid log means the live state is still Published: the live log is
   the exported one, or two events collide.
   */
  lemma LiveHeadMeansStillPublished(
    w: World, s: Reg, h: Hash, live: seq<Event>, t: Trust, context: Context, policy: Policy, kew: bytes, evidence: Evidence)
    returns (d: Event, e: Event)
    requires Log(s, h) != [] && ReadEvidence(w, s, h) == Ok(evidence.(liveHead := None))
    requires ValidLog(RegistryChain(w), live) && live != []
    requires evidence.liveHead == Some(ChainHash(w.suite, live[|live| - 1]))
    requires Verify(t, context, policy, kew, evidence).None?
    ensures (live == Log(s, h) && StateOf(live) == Some(Published)) ||
            Collision(w.suite, CanonicalBytes(d), CanonicalBytes(e))
  {
    VerifiedLive(t, context, policy, kew, evidence);
    d, e := LiveLog(w, s, h, live, evidence);
  }

  lemma LiveLog(w: World, s: Reg, h: Hash, live: seq<Event>, evidence: Evidence) returns (d: Event, e: Event)
    requires Log(s, h) != [] && ReadEvidence(w, s, h) == Ok(evidence.(liveHead := None))
    requires ValidLog(RegistryChain(w), live) && live != []
    requires evidence.status.Authoritative? && evidence.eventHead == ChainHash(w.suite, live[|live| - 1])
    ensures (live == Log(s, h) && StateOf(live) == Some(Published)) ||
            Collision(w.suite, CanonicalBytes(d), CanonicalBytes(e))
  {
    EvidenceHead(w, s, h, evidence);
    d, e := SameHead(w, Log(s, h), live);
  }

  lemma EvidenceHead(w: World, s: Reg, h: Hash, evidence: Evidence)
    requires Log(s, h) != [] && ReadEvidence(w, s, h) == Ok(evidence.(liveHead := None))
    ensures var last := Log(s, h)[|Log(s, h)| - 1];
            ValidLog(RegistryChain(w), Log(s, h)) && evidence.eventHead == ChainHash(w.suite, last) &&
            (evidence.status.Authoritative? <==> StateOf(Log(s, h)) == Some(Published))
  {
    EvidenceIs(w, s, h);
  }

  lemma SameHead(w: World, log: seq<Event>, live: seq<Event>) returns (d: Event, e: Event)
    requires ValidLog(RegistryChain(w), log) && ValidLog(RegistryChain(w), live) && log != [] && live != []
    requires ChainHash(w.suite, log[|log| - 1]) == ChainHash(w.suite, live[|live| - 1])
    ensures live == log || Collision(w.suite, CanonicalBytes(d), CanonicalBytes(e))
  {
    d, e := HeadPinsLog(w.suite, w.suite.publicOf(w.rootKey), log, live);
  }

  // ---- admission ----

  datatype Refusal =
    | ReadFailed
    | NotDecodable(error: Artifacts.Error)
    | AddressMismatch(claimed: Hash)
    | NotAuthoritative(status: RegistryStatus)
    | VerifyRejected(reason: Reason)

  datatype Decision = Admitted(artifact: Artifact) | Refused(refusal: Refusal)

  function ClaimsOf(atts: seq<Attestation>): seq<AttestationType> {
    seq(|atts|, i requires 0 <= i < |atts| => atts[i].claim)
  }

  function VersionsOf(atts: seq<Attestation>): seq<Text> {
    seq(|atts|, i requires 0 <= i < |atts| => atts[i].policyVersion)
  }

  /** The compiler's key, and the expert's for exactly the types carried. Only membership of a list is ever asked. */
  function AdmissionTrust(w: World, a: Artifact): Trust {
    var compiler := KeyEntry(COMPILER_KEY_ID, w.suite.publicOf(w.compilerKey), [SignerRole.Registry], [], 0, U64_MAX, Active);
    Trust(w.suite, w.profile, w.suite.publicOf(w.tsaKey), [compiler, ExpertEntry(w, ClaimsOf(a.attestations))])
  }

  function AdmissionContext(a: Artifact, env: Text, now: u64): Context {
    Context(env, now, VersionsOf(a.attestations), None)
  }

  /** Readable, decodable, correctly addressed, Published, verified: the first failure names the refusal. */
  function Admit(w: World, s: Reg, h: Hash, env: Text, now: u64): Result<Decision, Registry.Error> {
    match Stored(w, s, h)
    case Err(ArtifactDecode(e)) => Ok(Refused(NotDecodable(e)))
    case Err(_) => Ok(Refused(ReadFailed))
    case Ok(a) => AdmitRecord(w, s, h, a, s.artifacts[h], env, now)
  }

  function AdmitRecord(w: World, s: Reg, h: Hash, a: Artifact, kew: bytes, env: Text, now: u64): Result<Decision, Registry.Error> {
    if a.manifest.hash != h then Ok(Refused(AddressMismatch(a.manifest.hash)))
    else
      match ReadEvidence(w, s, h)
      case Err(e) => Err(e)
      case Ok(evidence) =>
        if !evidence.status.Authoritative? then Ok(Refused(NotAuthoritative(evidence.status)))
        else
          match Verify(AdmissionTrust(w, a), AdmissionContext(a, env, now), PolicyForKind(a.manifest.kind), kew, evidence)
          case Some(reason) => Ok(Refused(VerifyRejected(reason)))
          case None => Ok(Admitted(a))
  }

  /** The export's loop over the addresses: each is exported or refused with a reason, in address order. */
  method ExportAll(w: World, s: Reg, addresses: seq<Hash>, env: Text, now: u64)
    returns (r: Result<(seq<Hash>, seq<(Hash, Refusal)>), Registry.Error>)
    ensures r.Err? ==> exists h :: h in addresses && Admit(w, s, h, env, now) == Err(r.error)
    ensures r.Ok? ==> r.value == Exports(w, s, addresses, env, now)
    ensures r.Ok? ==> forall h :: h in r.value.0 <==> h in addresses && Admits(w, s, h, env, now)
    ensures r.Ok? ==> forall x :: x in r.value.1 <==> x.0 in addresses && Admit(w, s, x.0, env, now) == Ok(Refused(x.1))
  {
    var exported: seq<Hash> := [];
    var refused: seq<(Hash, Refusal)> := [];
    for i := 0 to |addresses|
      invariant (exported, refused) == Exports(w, s, addresses[..i], env, now)
    {
      assert addresses[..i + 1][..i] == addresses[..i];
      match Admit(w, s, addresses[i], env, now)
      case Err(e) => return Err(e);
      case Ok(Admitted(_)) => exported := exported + [addresses[i]];
      case Ok(Refused(reason)) => refused := refused + [(addresses[i], reason)];
    }
    assert addresses[..|addresses|] == addresses;
    ExportedAreAdmitted(w, s, addresses, env, now);
    RefusedAreTold(w, s, addresses, env, now);
    r := Ok((exported, refused));
  }

  predicate Admits(w: World, s: Reg, h: Hash, env: Text, now: u64) {
    var d := Admit(w, s, h, env, now);
    d.Ok? && d.value.Admitted?
  }

  function Exports(w: World, s: Reg, addresses: seq<Hash>, env: Text, now: u64): (seq<Hash>, seq<(Hash, Refusal)>) {
    if addresses == [] then ([], [])
    else
      var last := |addresses| - 1;
      var (exported, refused) := Exports(w, s, addresses[..last], env, now);
      match Admit(w, s, addresses[last], env, now)
      case Ok(Admitted(_)) => (exported + [addresses[last]], refused)
      case Ok(Refused(reason)) => (exported, refused + [(addresses[last], reason)])
      case Err(_) => (exported, refused)
  }

  lemma {:induction false} ExportedAreAdmitted(w: World, s: Reg, addresses: seq<Hash>, env: Text, now: u64)
    ensures forall h :: h in Exports(w, s, addresses, env, now).0 <==> h in addresses && Admits(w, s, h, env, now)
  {
    if addresses != [] {
      var last := |addresses| - 1;
      ExportedAreAdmitted(w, s, addresses[..last], env, now);
      assert addresses == addresses[..last] + [addresses[last]];
    }
  }

  lemma {:induction false} RefusedAreTold(w: World, s: Reg, addresses: seq<Hash>, env: Text, now: u64)
    ensures forall x :: x in Exports(w, s, addresses, env, now).1 <==> x.0 in addresses && Admit(w, s, x.0, env, now) == Ok(Refused(x.1))
  {
    if addresses != [] {
      var last := |addresses| - 1;
      RefusedAreTold(w, s, addresses[..last], env, now);
      assert addresses == addresses[..last] + [addresses[last]];
    }
  }

  // ---- what admission decides in a good registry ----

  lemma AdmissionKnowsExpert(w: World, a: Artifact, env: Text, now: u64)
    requires env == LOCAL
    ensures KnowsExpert(w, CheckerFor(AdmissionTrust(w, a), AdmissionContext(a, env, now), a.manifest), ClaimsOf(a.attestations))
  {
    var d := AdmissionTrust(w, a).directory;
    assert |EXPERT_KEY_ID| != |COMPILER_KEY_ID|;
    assert d[1..][0] == d[1];
    assert Lookup(d, EXPERT_KEY_ID) == Lookup(d[1..], EXPERT_KEY_ID);
  }

  lemma CompilerAccepted(w: World, a: Artifact)
    requires Honest(w) && Artifacts.Canonical(w.profile, a) && Artifacts.IsSealed(w.suite, w.compilerKey, a)
    requires a.compilerSignature.keyId == COMPILER_KEY_ID
    ensures var kew := Artifacts.Encode(a);
            Artifacts.VerifyHash(w.suite, w.profile, kew).Ok? &&
            Artifacts.Decode(w.profile, kew) == Ok((a, |Artifacts.Envelope(a)|)) && |Artifacts.Envelope(a)| <= |kew| &&
            CompilerKeyAccepts(AdmissionTrust(w, a), kew[..|Artifacts.Envelope(a)|], a.compilerSignature)
  {
    Artifacts.SealedVerifies(w.suite, w.profile, w.compilerKey, a);
    PrefixSlice(Artifacts.Envelope(a), Artifacts.Encode(a));
    var d := AdmissionTrust(w, a).directory;
    assert Lookup(d, COMPILER_KEY_ID) == Some(d[0]);
  }

  /** The built-in policies ask for one of each type. */
  lemma BuiltInAsksForOne(kind: ArtifactKind, t: AttestationType)
    ensures Required(PolicyForKind(kind), t) == 1
  {
    OnesRequireOne(PolicyForKind(kind).minimums, t);
  }

  lemma {:induction false} OnesRequireOne(minimums: seq<(AttestationType, nat)>, t: AttestationType)
    requires forall i | 0 <= i < |minimums| :: minimums[i].1 == 1
    ensures var m := FirstMinimum(minimums, t); m.None? || m.value == 1
  {
    if minimums != [] {
      OnesRequireOne(minimums[1..], t);
    }
  }

  lemma {:induction false} CountAtLeastOne(t: AttestationType, atts: seq<Attestation>)
    ensures Count(t, atts) >= 1 <==> Carries(t, atts)
  {
    if atts != [] {
      var last := |atts| - 1;
      CountAtLeastOne(t, atts[..last]);
      assert atts == atts[..last] + [atts[last]];
    }
  }

  /** A set meets the built-in policy of its kind exactly when it is complete. */
  lemma CompleteMeetsBuiltIn(a: Artifact)
    ensures var policy := PolicyForKind(a.manifest.kind);
            (forall t :: t in policy.required ==> Count(t, a.attestations) >= Required(policy, t)) <==> Complete(a)
    ensures Complete(a) ==> a.attestations != [] && forall t :: t in CoTypes(a.manifest.kind) ==> Carries(t, a.attestations)
  {
    var policy := PolicyForKind(a.manifest.kind);
    forall t: AttestationType
      ensures Count(t, a.attestations) >= Required(policy, t) <==> Carries(t, a.attestations)
    {
      BuiltInAsksForOne(a.manifest.kind, t);
      CountAtLeastOne(t, a.attestations);
    }
    assert SourceFidelity in policy.required;
    assert a.manifest.kind.IntentSpec? || ScenarioCoverage in policy.required;
  }

  lemma GoodEvidence(w: World, l: Laws, s: Reg, h: Hash)
    requires l.chain == RegistryChain(w) && Good(l, s)
    ensures ReadEvidence(w, s, h).Ok? && ReadEvidence(w, s, h).value.liveHead.None?
    ensures ReadEvidence(w, s, h).value.status.Authoritative? <==> StateOf(Log(s, h)) == Some(Published)
  {
    if Log(s, h) != [] {
      GoodLog(l, s, h);
      HeadIs(w, s, h);
    }
  }

  /** Whether the admission policy accepts the attestations of a filed record. */
  predicate Acceptable(a: Artifact, env: Text, now: u64) {
    env == LOCAL && now < U64_MAX && Complete(a)
  }

  lemma ClaimCarried(atts: seq<Attestation>, a: Attestation)
    requires a in atts
    ensures a.claim in ClaimsOf(atts) && a.policyVersion in VersionsOf(atts)
  {
    var i :| 0 <= i < |atts| && atts[i] == a;
    assert ClaimsOf(atts)[i] == a.claim && VersionsOf(atts)[i] == a.policyVersion;
  }

  lemma AdmissionSet(w: World, a: Artifact, env: Text, now: u64)
    requires Honest(w) && forall x :: x in a.attestations ==> Expertly(w, a.manifest, x)
    ensures var k := CheckerFor(AdmissionTrust(w, a), AdmissionContext(a, env, now), a.manifest);
            SetRejections(Checks(k), a.manifest.kind, PolicyForKind(a.manifest.kind), a.attestations) == [] <==> Acceptable(a, env, now)
  {
    var k := CheckerFor(AdmissionTrust(w, a), AdmissionContext(a, env, now), a.manifest);
    var policy := PolicyForKind(a.manifest.kind);
    if env != LOCAL {
      NothingVerifiesElsewhere(k, policy, a.attestations);
    } else {
      AdmissionKnowsExpert(w, a, env, now);
      forall x | x in a.attestations
        ensures x.claim in ClaimsOf(a.attestations) && x.policyVersion in k.context.supportedVersions
      {
        ClaimCarried(a.attestations, x);
      }
      ExpertSetAccepted(w, k, ClaimsOf(a.attestations), policy, a.attestations);
      CompleteMeetsBuiltIn(a);
    }
  }

  /** The whole verification of a filed record comes down to its attestations. */
  lemma FiledVerdict(w: World, a: Artifact, kew: bytes, h: Hash, env: Text, now: u64, evidence: Evidence)
    requires Honest(w) && Filed(w, h, kew, a) && evidence.status.Authoritative? && evidence.liveHead.None?
    ensures Verify(AdmissionTrust(w, a), AdmissionContext(a, env, now), PolicyForKind(a.manifest.kind), kew, evidence).None? <==>
            Acceptable(a, env, now)
  {
    CompilerAccepted(w, a);
    AdmissionSet(w, a, env, now);
    VerdictIsSet(AdmissionTrust(w, a), AdmissionContext(a, env, now), PolicyForKind(a.manifest.kind), kew, a, |Artifacts.Envelope(a)|, evidence);
  }

  lemma VerdictIsSet(t: Trust, context: Context, policy: Policy, kew: bytes, a: Artifact, len: nat, evidence: Evidence)
    requires Artifacts.Decode(t.profile, kew) == Ok((a, len)) && Artifacts.VerifyHash(t.suite, t.profile, kew).Ok?
    requires len <= |kew| && CompilerKeyAccepts(t, kew[..len], a.compilerSignature)
    requires evidence.status.Authoritative? && evidence.liveHead.None?
    ensures Verify(t, context, policy, kew, evidence).None? <==>
            SetRejections(Checks(CheckerFor(t, context, a.manifest)), a.manifest.kind, policy, a.attestations) == []
  {
  }

  /** In a good registry an address is admitted exactly when it is Published and its stored set is acceptable. */
  lemma AdmitExactly(w: World, s: Reg, h: Hash, env: Text, now: u64) returns (a: Artifact)
    requires Honest(w) && Good(LawsOf(w), s) && h in s.artifacts
    ensures Filed(w, h, s.artifacts[h], a) && Stored(w, s, h) == Ok(a) && Admit(w, s, h, env, now).Ok?
    ensures Admit(w, s, h, env, now) == Ok(Admitted(a)) <==> StateOf(Log(s, h)) == Some(Published) && Acceptable(a, env, now)
    ensures Admit(w, s, h, env, now).value.Admitted? ==> Admit(w, s, h, env, now) == Ok(Admitted(a))
  {
    a := StoredIs(w, s, h);
    GoodEvidence(w, LawsOf(w), s, h);
    var evidence := ReadEvidence(w, s, h).value;
    if evidence.status.Authoritative? {
      FiledVerdict(w, a, s.artifacts[h], h, env, now, evidence);
    }
    AdmitIs(w, s, h, a, env, now, evidence);
  }

  lemma AdmitIs(w: World, s: Reg, h: Hash, a: Artifact, env: Text, now: u64, evidence: Evidence)
    requires Stored(w, s, h) == Ok(a) && a.manifest.hash == h && ReadEvidence(w, s, h) == Ok(evidence)
    ensures var r := Admit(w, s, h, env, now);
            r.Ok? && (r.value == Admitted(a) <==> r.value.Admitted?) &&
            (r.value.Admitted? <==>
               evidence.status.Authoritative? &&
               Verify(AdmissionTrust(w, a), AdmissionContext(a, env, now), PolicyForKind(a.manifest.kind), s.artifacts[h], evidence).None?)
  {
  }

  // ---- publication implies verification ----

  /** What a successful publish under the built-in policy has checked. */
  lemma PublishChecked(w: World, s: Reg, h: Hash, env: Text, tag: Text, now: u64) returns (a: Artifact, writes: seq<Write>)
    requires Honest(w) && Good(LawsOf(w), s) && PublishTrace(w, s, h, env, tag, BuiltIn, now).result.Ok?
    ensures h in s.artifacts && Filed(w, h, s.artifacts[h], a) && Complete(a) && StateOf(Log(s, h)) == Some(ExpertAttested)
    ensures Played(LawsOf(w), s, PublishTrace(w, s, h, env, tag, BuiltIn, now).states, writes)
    ensures |writes| == 2 && Logs(writes[0], h, Published) && Points(writes[1], h)
  {
    PublishNeedsState(w, s, h, env, tag, BuiltIn, now);
    StandingIs(w, LawsOf(w), s, h);
    GoodLog(LawsOf(w), s, h);
    a := StoredIs(w, s, h);
    writes := PublishSafe(w, LawsOf(w), s, h, env, tag, BuiltIn, now, a);
    LocalGate(w, a, PolicyForKind(a.manifest.kind), now);
    CompleteMeetsBuiltIn(a);
  }

  /** A publish under the built-in policy succeeds exactly on an expert-attested artifact with a complete set, in the key window. */
  lemma PublishSucceedsExactly(w: World, s: Reg, h: Hash, env: Text, tag: Text, now: u64)
    requires Honest(w) && Good(LawsOf(w), s)
    ensures PublishTrace(w, s, h, env, tag, BuiltIn, now).result.Ok? <==>
            StateOf(Log(s, h)) == Some(ExpertAttested) && Stored(w, s, h).Ok? && Complete(Stored(w, s, h).value) && now < U64_MAX
  {
    if StateOf(Log(s, h)) == Some(ExpertAttested) {
      GoodLog(LawsOf(w), s, h);
      var a := StoredIs(w, s, h);
      var writes := PublishSafe(w, LawsOf(w), s, h, env, tag, BuiltIn, now, a);
      LocalGate(w, a, PolicyForKind(a.manifest.kind), now);
      CompleteMeetsBuiltIn(a);
    } else {
      StandingIs(w, LawsOf(w), s, h);
      if PublishTrace(w, s, h, env, tag, BuiltIn, now).result.Ok? {
        PublishNeedsState(w, s, h, env, tag, BuiltIn, now);
      }
    }
  }

  lemma PublishNeedsState(w: World, s: Reg, h: Hash, env: Text, tag: Text, choice: PolicyChoice, now: u64)
    requires PublishTrace(w, s, h, env, tag, choice, now).result.Ok?
    ensures Standing(w, s, h) == Ok(ExpertAttested)
  {
  }

  lemma PublishEnds(l: Laws, s: Reg, h: Hash, t: Trace, writes: seq<Write>)
    requires Good(l, s) && Played(l, s, t.states, writes)
    requires |writes| == 2 && Logs(writes[0], h, Published) && Points(writes[1], h)
    ensures Good(l, Final(s, t)) && Final(s, t).artifacts == s.artifacts && StateOf(Log(Final(s, t), h)) == Some(Published)
  {
    assert Step(l, Before(s, t.states, 0), writes[0], t.states[0]);
    assert Step(l, Before(s, t.states, 1), writes[1], t.states[1]);
    SafeKeepsGood(l, s, writes[0]);
    SafeKeepsGood(l, t.states[0], writes[1]);
  }

  /** Right after a successful publish the artifact is admitted locally, at any time the key window is open. */
  lemma PublishedIsAdmitted(w: World, s: Reg, h: Hash, env: Text, tag: Text, now: u64, later: u64) returns (a: Artifact)
    requires Honest(w) && Good(LawsOf(w), s) && PublishTrace(w, s, h, env, tag, BuiltIn, now).result.Ok? && later < U64_MAX
    ensures Stored(w, s, h) == Ok(a)
    ensures Admit(w, Final(s, PublishTrace(w, s, h, env, tag, BuiltIn, now)), h, LOCAL, later) == Ok(Admitted(a))
  {
    var writes;
    a, writes := PublishChecked(w, s, h, env, tag, now);
    PublishEnds(LawsOf(w), s, h, PublishTrace(w, s, h, env, tag, BuiltIn, now), writes);
    a := StillAdmitted(w, s, Final(s, PublishTrace(w, s, h, env, tag, BuiltIn, now)), h, a, later);
  }

  lemma StillAdmitted(w: World, s: Reg, t: Reg, h: Hash, a: Artifact, later: u64) returns (b: Artifact)
    requires Honest(w) && Good(LawsOf(w), s) && Good(LawsOf(w), t) && t.artifacts == s.artifacts && StateOf(Log(t, h)) == Some(Published)
    requires h in s.artifacts && Filed(w, h, s.artifacts[h], a) && Complete(a) && later < U64_MAX
    ensures Stored(w, s, h) == Ok(b) && Admit(w, t, h, LOCAL, later) == Ok(Admitted(b))
  {
    b := AdmitExactly(w, t, h, LOCAL, later);
    Artifacts.DecodeEncode(w.profile, a);
    Artifacts.DecodeEncode(w.profile, b);
  }

  // ---- runs without policy overrides ----

  predicate BuiltInOnly(c: Command) {
    c.Publish? ==> !c.policy.Bundle?
  }

  /** Every publishing write among these published a complete set. */
  ghost predicate Checked(l: Laws, s: Reg, states: seq<Reg>, writes: seq<Write>)
    requires |states| == |writes|
  {
    forall i | 0 <= i < |writes| :: CheckedWrite(l, Before(s, states, i), writes[i])
  }

  ghost predicate CheckedWrite(l: Laws, s: Reg, x: Write) {
    Publishes(s, x) ==> x.h in s.artifacts && l.complete(s.artifacts[x.h])
  }

  lemma PlayedKeepsPublications(l: Laws, s: Reg, states: seq<Reg>, writes: seq<Write>, i: nat)
    requires Good(l, s) && GoodPublications(l, s) && Played(l, s, states, writes) && Checked(l, s, states, writes)
    requires i <= |states|
    ensures GoodPublications(l, Before(s, states, i))
  {
    forall j | 0 <= j < |states|
      ensures FullyGood(l, Before(s, states, j)) ==> FullyGood(l, states[j])
    {
      PlayedStep(l, s, states, writes, j);
      if FullyGood(l, Before(s, states, j)) {
        StepKeepsPublications(l, Before(s, states, j), writes[j], states[j]);
      }
    }
    AlongStates(s, states, (a: Reg, b: Reg) => FullyGood(l, a) ==> FullyGood(l, b), i);
  }

  /** Good, and sound about what is published. */
  ghost predicate FullyGood(l: Laws, s: Reg) {
    Good(l, s) && GoodPublications(l, s)
  }

  lemma PlayedStep(l: Laws, s: Reg, states: seq<Reg>, writes: seq<Write>, i: nat)
    requires Played(l, s, states, writes) && Checked(l, s, states, writes) && i < |states|
    ensures Step(l, Before(s, states, i), writes[i], states[i]) && CheckedWrite(l, Before(s, states, i), writes[i])
  {
  }

  lemma StepKeepsPublications(l: Laws, s: Reg, x: Write, t: Reg)
    requires Good(l, s) && GoodPublications(l, s) && Step(l, s, x, t) && CheckedWrite(l, s, x)
    ensures Good(l, t) && GoodPublications(l, t)
  {
    SafeKeepsGood(l, s, x);
    SafeKeepsPublications(l, s, x);
  }

  /** Only publishing publishes; a rollback's event finds the artifact Published already. */
  lemma ShapedIsChecked(l: Laws, s: Reg, c: Command, h: Hash, t: Trace, writes: seq<Write>)
    requires Played(l, s, t.states, writes) && Shaped(c, t.result.Ok?, h, writes)
    requires c.Publish? && t.result.Ok? ==> h in s.artifacts && l.complete(s.artifacts[h])
    requires c.Rollback? && t.result.Ok? ==> StateOf(Log(s, h)) == Some(Published)
    ensures Checked(l, s, t.states, writes)
  {
    forall i | 0 <= i < |writes|
      ensures CheckedWrite(l, Before(s, t.states, i), writes[i])
    {
      assert Step(l, Before(s, t.states, i), writes[i], t.states[i]);
    }
  }

  lemma CommandIsChecked(w: World, s: Reg, c: Command) returns (h: Hash, writes: seq<Write>)
    requires Honest(w) && Good(LawsOf(w), s) && BuiltInOnly(c)
    ensures var t := TraceOf(w, s, c);
            Played(LawsOf(w), s, t.states, writes) && Checked(LawsOf(w), s, t.states, writes)
  {
    h, writes := CommandSafe(w, s, c);
    var t := TraceOf(w, s, c);
    if c.Publish? && t.result.Ok? {
      PublishWasBuiltIn(w, s, c);
      var a, _ := PublishChecked(w, s, c.h, c.env, c.tag, c.now);
      Artifacts.DecodeEncode(w.profile, a);
    } else if c.Rollback? && t.result.Ok? {
      RollbackNeedsPublished(w, s, c);
      StandingIs(w, LawsOf(w), s, h);
    }
    ShapedIsChecked(LawsOf(w), s, c, h, t, writes);
  }

  lemma PublishWasBuiltIn(w: World, s: Reg, c: Command)
    requires c.Publish? && TraceOf(w, s, c).result.Ok? && BuiltInOnly(c)
    ensures TraceOf(w, s, c) == PublishTrace(w, s, c.h, c.env, c.tag, BuiltIn, c.now)
  {
  }

  lemma RollbackNeedsPublished(w: World, s: Reg, c: Command)
    requires c.Rollback? && TraceOf(w, s, c).result.Ok?
    ensures Standing(w, s, c.h) == Ok(Published)
  {
  }

  lemma StoppedKeepsPublications(l: Laws, s: Reg, t: Trace, writes: seq<Write>, stop: Option<nat>)
    requires Good(l, s) && GoodPublications(l, s) && Played(l, s, t.states, writes) && Checked(l, s, t.states, writes)
    ensures GoodPublications(l, Stopped(s, t, stop))
  {
    PlayedKeepsPublications(l, s, t.states, writes, WritesMade(s, t, stop));
  }

  lemma {:induction false} RunKeepsPublications(w: World, s: Reg, attempts: seq<Attempt>)
    requires Honest(w) && Good(LawsOf(w), s) && GoodPublications(LawsOf(w), s)
    requires forall x :: x in attempts ==> BuiltInOnly(x.command)
    ensures GoodPublications(LawsOf(w), Run(w, s, attempts))
    decreases |attempts|
  {
    if attempts != [] {
      var x := attempts[0];
      var h, writes := CommandIsChecked(w, s, x.command);
      StoppedKeepsPublications(LawsOf(w), s, TraceOf(w, s, x.command), writes, x.stop);
      ExecKeepsGood(w, s, x);
      RunKeepsPublications(w, Exec(w, s, x), attempts[1..]);
    }
  }

  /**
   The main result. After any run of the commands without policy overrides, commands stopped anywhere, an address
   is admitted exactly when its log ends Published, the environment is the local one, the key window is open, and
   the stored bytes still carry attestations.
   */
  lemma AdmittedExactlyWhenPublishedAndAttested(w: World, attempts: seq<Attempt>, h: Hash, env: Text, now: u64)
    requires Honest(w) && forall x :: x in attempts ==> BuiltInOnly(x.command)
    ensures var s := Run(w, EMPTY, attempts);
            Admit(w, s, h, env, now).Ok? &&
            (Admit(w, s, h, env, now).value.Admitted? <==>
               StateOf(Log(s, h)) == Some(Published) && env == LOCAL && now < U64_MAX &&
               Stored(w, s, h).Ok? && Stored(w, s, h).value.attestations != [])
  {
    EmptyIsGood(LawsOf(w));
    RunIsGood(w, EMPTY, attempts);
    RunKeepsPublications(w, EMPTY, attempts);
    AdmittedWhenAttested(w, Run(w, EMPTY, attempts), h, env, now);
  }

  lemma AdmittedWhenAttested(w: World, s: Reg, h: Hash, env: Text, now: u64)
    requires Honest(w) && Good(LawsOf(w), s) && GoodPublications(LawsOf(w), s)
    ensures Admit(w, s, h, env, now).Ok? &&
            (Admit(w, s, h, env, now).value.Admitted? <==>
               StateOf(Log(s, h)) == Some(Published) && env == LOCAL && now < U64_MAX &&
               Stored(w, s, h).Ok? && Stored(w, s, h).value.attestations != [])
  {
    if h in s.artifacts {
      var a := AdmitExactly(w, s, h, env, now);
      CompleteMeetsBuiltIn(a);
      if StateOf(Log(s, h)) == Some(Published) {
        ReachedNow(Log(s, h));
        BareOrComplete(w, s, h, a);
      }
    }
  }

  lemma BareOrComplete(w: World, s: Reg, h: Hash, a: Artifact)
    requires GoodPublications(LawsOf(w), s) && h in s.artifacts && Filed(w, h, s.artifacts[h], a) && Reached(Log(s, h), Published)
    ensures a.attestations == [] || Complete(a)
  {
    Artifacts.DecodeEncode(w.profile, a);
    assert LawsOf(w).bare(s.artifacts[h]) || LawsOf(w).complete(s.artifacts[h]);
  }
}
