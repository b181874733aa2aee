/** Commands stopped between two of their writes: which can be repeated, which another command completes, which never. */
module Retry {
  import opened Wrappers
  import opened Wire
  import opened Crypto
  import opened Records
  import opened Attestations
  import opened Events
  import opened Registry
  import opened Lifecycle
  import opened Runs
  import opened Reach
  import Artifacts

  // ---- the registry a stopped command leaves ----

  lemma StoppedState(l: Laws, s: Reg, t: Trace, writes: seq<Write>, n: nat)
    requires Good(l, s) && Played(l, s, t.states, writes) && 0 < n <= |t.states|
    ensures Stopped(s, t, Some(n)) == t.states[n - 1] && Good(l, t.states[n - 1])
  {
    StoppedIs(s, t, n);
    StoppedKeepsGood(l, s, t, writes, Some(n));
  }

  lemma StoppedIs(s: Reg, t: Trace, n: nat)
    requires 0 < n <= |t.states|
    ensures Stopped(s, t, Some(n)) == t.states[n - 1]
  {
  }

  lemma StoppedAfter(w: World, s: Reg, c: Command, n: nat) returns (h: Hash, writes: seq<Write>)
    requires Honest(w) && Good(LawsOf(w), s) && TraceOf(w, s, c).result.Ok? && 0 < n < |TraceOf(w, s, c).states|
    ensures var t := TraceOf(w, s, c);
            Exec(w, s, Attempt(c, Some(n))) == t.states[n - 1] && Good(LawsOf(w), t.states[n - 1]) &&
            Played(LawsOf(w), s, t.states, writes) && Shaped(c, true, h, writes) && t.result.value.hash == h && (!c.Compile? ==> h == c.h)
  {
    h, writes := CommandSafe(w, s, c);
    StoppedState(LawsOf(w), s, TraceOf(w, s, c), writes, n);
  }

  lemma FirstState(l: Laws, s: Reg, states: seq<Reg>, writes: seq<Write>)
    requires Played(l, s, states, writes) && states != []
    ensures Step(l, s, writes[0], states[0])
    ensures forall h | writes[0].LogEvent? && writes[0].h == h :: Log(states[0], h) == Log(s, h) + [writes[0].e]
  {
    assert Step(l, Before(s, states, 0), writes[0], states[0]);
  }

  // ---- repeating the same command ----

  /** The same call, made at another time. */
  function At(c: Command, now: u64): Command {
    c.(now := now)
  }

  /**
   The stops after which the same call succeeds: a compile or attest that has filed its bytes only, or a rollback. The clock
   matters to an attest alone, whose key must still be inside its window.
   */
  predicate Repeatable(s: Reg, c: Command, n: nat, later: u64) {
    match c
    case Compile(_, _, _, _, _) => n == 1
    case Attest(_, _, _) => later < U64_MAX
    case Rollback(_, _, h, _) => |Log(s, h)| + 1 < U32_COUNT
    case _ => false
  }

  /** A command that would have succeeded, stopped after some but not all of its writes, succeeds at a later call exactly then. */
  lemma RetryExactly(w: World, s: Reg, c: Command, n: nat, later: u64)
    requires Honest(w) && Good(LawsOf(w), s) && TraceOf(w, s, c).result.Ok? && 0 < n < |TraceOf(w, s, c).states|
    ensures TraceOf(w, Exec(w, s, Attempt(c, Some(n))), At(c, later)).result.Ok? <==> Repeatable(s, c, n, later)
  {
    var h, writes := StoppedAfter(w, s, c, n);
    if c.Compile? {
      RetryFilingCompile(w, s, c, n, later);
    } else if c.Attest? {
      RetryFilingAttest(w, s, c, n, writes, later);
    } else {
      RetryRecording(w, LawsOf(w), s, c, TraceOf(w, s, c).states, n, writes, later);
    }
  }

  lemma RetryFilingCompile(w: World, s: Reg, c: Command, n: nat, later: u64)
    requires Honest(w) && Good(LawsOf(w), s) && TraceOf(w, s, c).result.Ok? && 0 < n < |TraceOf(w, s, c).states|
    requires Good(LawsOf(w), TraceOf(w, s, c).states[n - 1]) && c.Compile?
    ensures TraceOf(w, TraceOf(w, s, c).states[n - 1], At(c, later)).result.Ok? <==> n == 1
  {
    RetryCompile(w, s, c.manifest, c.payload, c.audit, c.blocking, c.now, n, later);
  }

  lemma RetryFilingAttest(w: World, s: Reg, c: Command, n: nat, writes: seq<Write>, later: u64)
    requires Honest(w) && Good(LawsOf(w), s) && TraceOf(w, s, c).result.Ok? && 0 < n < |TraceOf(w, s, c).states|
    requires Good(LawsOf(w), TraceOf(w, s, c).states[n - 1]) && c.Attest?
    requires Played(LawsOf(w), s, TraceOf(w, s, c).states, writes) && Shaped(c, true, c.h, writes)
    ensures TraceOf(w, TraceOf(w, s, c).states[n - 1], At(c, later)).result.Ok? <==> later < U64_MAX
  {
    assert n == 1;
    RetryAttest(w, s, c.h, c.types, c.now, later);
  }

  lemma RetryRecording(w: World, l: Laws, s: Reg, c: Command, states: seq<Reg>, n: nat, writes: seq<Write>, later: u64)
    requires Honest(w) && l.chain == RegistryChain(w) && 0 < n < |states| && Good(l, states[n - 1])
    requires !c.Compile? && !c.Attest? && Played(l, s, states, writes) && Shaped(c, true, c.h, writes)
    ensures TraceOf(w, states[n - 1], At(c, later)).result.Ok? <==> Repeatable(s, c, n, later)
  {
    FewWrites(c, writes);
    FirstState(l, s, states, writes);
    RetryLater(w, l, s, states[0], c, writes, later);
  }

  lemma FewWrites(c: Command, writes: seq<Write>)
    requires !c.Compile? && Shaped(c, true, c.h, writes)
    ensures |writes| <= 2
  {
  }

  /** The commands that write no bytes, from the state their first write left. */
  lemma RetryLater(w: World, l: Laws, s: Reg, t: Reg, c: Command, writes: seq<Write>, later: u64)
    requires Honest(w) && l.chain == RegistryChain(w) && Good(l, t) && !c.Compile? && !c.Attest?
    requires Shaped(c, true, c.h, writes) && |writes| > 1 && Step(l, s, writes[0], t)
    requires writes[0].LogEvent? ==> Log(t, c.h) == Log(s, c.h) + [writes[0].e]
    ensures TraceOf(w, t, At(c, later)).result.Ok? <==> Repeatable(s, c, 1, later)
  {
    if c.MlCheck? {
      RetryCheck(w, l, t, At(c, later));
    } else if c.Revoke? {
      RetryRevoke(w, l, t, At(c, later));
    } else {
      RetryPointing(w, l, t, At(c, later));
    }
  }

  lemma RetryCheck(w: World, l: Laws, t: Reg, c: Command)
    requires Honest(w) && l.chain == RegistryChain(w) && Good(l, t) && c.MlCheck? && c.h in t.consistency
    ensures TraceOf(w, t, c).result.Err?
  {
    var _ := MlCheckSafe(w, l, t, c.h, c.now);
  }

  lemma RetryRevoke(w: World, l: Laws, t: Reg, c: Command)
    requires Honest(w) && l.chain == RegistryChain(w) && Good(l, t) && c.Revoke? && StateOf(Log(t, c.h)) == Some(Revoked)
    ensures TraceOf(w, t, c).result.Err?
  {
    var _ := RevokeSafe(w, l, t, c.h, c.recorded, c.reasonClass, c.reason, c.now);
  }

  lemma RetryPointing(w: World, l: Laws, t: Reg, c: Command)
    requires Honest(w) && l.chain == RegistryChain(w) && Good(l, t) && (c.Publish? || c.Rollback?)
    requires StateOf(Log(t, c.h)) == Some(Published)
    ensures TraceOf(w, t, c).result.Ok? <==> c.Rollback? && |Log(t, c.h)| < U32_COUNT
  {
    if c.Publish? {
      RetryPublish(w, l, t, c.h, c.env, c.tag, c.policy, c.now);
    } else {
      var _ := RollbackSafe(w, l, t, c.env, c.tag, c.h, c.now);
    }
  }

  lemma RetryPublish(w: World, l: Laws, s: Reg, h: Hash, env: Text, tag: Text, choice: PolicyChoice, now: u64)
    requires l.chain == RegistryChain(w) && Good(l, s) && StateOf(Log(s, h)) == Some(Published)
    ensures PublishTrace(w, s, h, env, tag, choice, now).result.Err?
  {
    StandingIs(w, l, s, h);
  }

  lemma CompileAnywhere(w: World, s: Reg, t: Reg, m: Manifest, payload: Payload, audit: AuditVersions, blocking: bool, now: u64, later: u64)
    returns (h: Hash, kew: bytes, gate: Preconditions)
    requires Honest(w) && CompileTrace(w, s, m, payload, audit, blocking, now).states != []
    ensures CompileTrace(w, s, m, payload, audit, blocking, now) == StoreTrace(w, s, h, kew, gate, now)
    ensures CompileTrace(w, t, m, payload, audit, blocking, later) == StoreTrace(w, t, h, kew, gate, later)
    ensures LawsOf(w).filed(h, kew) && LawsOf(w).bare(kew) && gate.structuralClean && gate.compilerSignatureValid
  {
    CompileTraceIs(w, s, m, payload, audit, blocking, now);
    CompileFiled(w, m, payload, audit);
    var (a, bytes) := Compiled(w, m, payload, audit).value;
    h, kew, gate := a.manifest.hash, bytes, CompilerGate(w, bytes);
  }

  lemma RetryCompile(w: World, s: Reg, m: Manifest, payload: Payload, audit: AuditVersions, blocking: bool, now: u64, n: nat, later: u64)
    requires Honest(w) && Good(LawsOf(w), s)
    requires var t := CompileTrace(w, s, m, payload, audit, blocking, now); t.result.Ok? && 0 < n < |t.states|
    requires Good(LawsOf(w), CompileTrace(w, s, m, payload, audit, blocking, now).states[n - 1])
    ensures var t := CompileTrace(w, s, m, payload, audit, blocking, now).states[n - 1];
            CompileTrace(w, t, m, payload, audit, blocking, later).result.Ok? <==> n == 1
  {
    var t := CompileTrace(w, s, m, payload, audit, blocking, now).states[n - 1];
    var h, kew, gate := CompileAnywhere(w, s, t, m, payload, audit, blocking, now, later);
    RetryStore(w, LawsOf(w), s, h, kew, gate, now, n, later);
  }

  lemma RetryStore(w: World, l: Laws, s: Reg, h: Hash, kew: bytes, gate: Preconditions, now: u64, n: nat, later: u64)
    requires Honest(w) && l.chain == RegistryChain(w) && Good(l, s) && l.filed(h, kew) && l.bare(kew)
    requires gate.structuralClean && gate.compilerSignatureValid
    requires var t := StoreTrace(w, s, h, kew, gate, now); t.result.Ok? && 0 < n < |t.states| && Good(l, t.states[n - 1])
    ensures StoreTrace(w, StoreTrace(w, s, h, kew, gate, now).states[n - 1], h, kew, gate, later).result.Ok? <==> n == 1
  {
    StoredBefore(w, l, s, h, kew, gate, now, n);
    StoreAt(w, l, StoreTrace(w, s, h, kew, gate, now).states[n - 1], h, kew, gate, later);
  }

  lemma StoredBefore(w: World, l: Laws, s: Reg, h: Hash, kew: bytes, gate: Preconditions, now: u64, n: nat)
    requires Honest(w) && l.chain == RegistryChain(w) && Good(l, s) && l.filed(h, kew) && l.bare(kew)
    requires gate.structuralClean && gate.compilerSignatureValid
    requires var t := StoreTrace(w, s, h, kew, gate, now); t.result.Ok? && 0 < n < |t.states|
    ensures Log(StoreTrace(w, s, h, kew, gate, now).states[n - 1], h) == [] <==> n == 1
  {
    var writes := StoreSafe(w, l, s, h, kew, gate, now);
    StoredStates(l, s, StoreTrace(w, s, h, kew, gate, now).states, writes, h, n);
  }

  lemma StoreAt(w: World, l: Laws, s: Reg, h: Hash, kew: bytes, gate: Preconditions, now: u64)
    requires Honest(w) && l.chain == RegistryChain(w) && Good(l, s) && l.filed(h, kew) && l.bare(kew)
    requires gate.structuralClean && gate.compilerSignatureValid
    ensures StoreTrace(w, s, h, kew, gate, now).result.Ok? <==> Log(s, h) == []
  {
    var writes := StoreSafe(w, l, s, h, kew, gate, now);
  }

  /** After the first write of a fresh compile the log is still empty, after the second it is not. */
  lemma StoredStates(l: Laws, s: Reg, states: seq<Reg>, writes: seq<Write>, h: Hash, n: nat)
    requires Played(l, s, states, writes) && |writes| == 3 && Log(s, h) == [] && 0 < n < 3
    requires Files(writes[0], h) && Logs(writes[1], h, Draft)
    ensures Log(states[n - 1], h) == [] <==> n == 1
  {
    assert Step(l, Before(s, states, 0), writes[0], states[0]);
    assert Step(l, Before(s, states, 1), writes[1], states[1]);
  }

  lemma RetryAttest(w: World, s: Reg, h: Hash, types: Claims, now: u64, later: u64)
    requires Honest(w) && Good(LawsOf(w), s)
    requires var t := AttestTrace(w, s, h, types, now); t.result.Ok? && t.states != [] && Good(LawsOf(w), t.states[0])
    ensures AttestTrace(w, AttestTrace(w, s, h, types, now).states[0], h, types, later).result.Ok? <==> later < U64_MAX
  {
    var a := AttestSucceeded(w, s, h, types, now);
    var t := AttestTrace(w, s, h, types, now).states[0];
    RefiledIs(w, s, h, types, now, a, t);
    var b := AttestReady(w, t, h, types, later);
    SameRecordRefiled(w, s, h, types, now, a, b);
    AttestAgain(w, LawsOf(w), t, h, types, now, b, later);
  }

  lemma AttestAgain(w: World, l: Laws, s: Reg, h: Hash, types: Claims, now: u64, a: Artifact, later: u64)
    requires Honest(w) && l.chain == RegistryChain(w) && Good(l, s) && StateOf(Log(s, h)) == Some(MlChecked)
    requires Stored(w, s, h) == Ok(a) && a.manifest.hash == h && l.filed(h, Rewritten(w, a, types, later))
    requires AttestAccepts(a.manifest.kind, types, now)
    ensures AttestTrace(w, s, h, types, later).result.Ok? <==> later < U64_MAX
  {
    var again := AttestSafe(w, l, s, h, types, later, a);
  }

  lemma AttestSucceeded(w: World, s: Reg, h: Hash, types: Claims, now: u64) returns (a: Artifact)
    requires Honest(w) && Good(LawsOf(w), s) && AttestTrace(w, s, h, types, now).result.Ok?
    ensures StateOf(Log(s, h)) == Some(MlChecked) && Stored(w, s, h) == Ok(a) && AttestAccepts(a.manifest.kind, types, now)
    ensures var t := AttestTrace(w, s, h, types, now);
            t.states != [] && t.states[0] == WithArtifact(s, h, Rewritten(w, a, types, now))
  {
    StandingIs(w, LawsOf(w), s, h);
    AttestedFromChecked(w, s, h, types, now);
    a := AttestReady(w, s, h, types, now);
    var writes := AttestSafe(w, LawsOf(w), s, h, types, now, a);
    var rejections := AttestTraceIs(w, s, h, types, now, a);
    FileOpens(w, s, h, Rewritten(w, a, types, now), rejections, now);
  }

  lemma AttestedFromChecked(w: World, s: Reg, h: Hash, types: Claims, now: u64)
    requires AttestTrace(w, s, h, types, now).result.Ok?
    ensures types != [] && Standing(w, s, h) == Ok(MlChecked)
  {
  }

  lemma FileOpens(w: World, s: Reg, h: Hash, kew: bytes, rejections: seq<Rejection>, now: u64)
    ensures var t := FileTrace(w, s, h, h, kew, rejections, now); t.states != [] && t.states[0] == WithArtifact(s, h, kew)
  {
  }

  lemma RefiledIs(w: World, s: Reg, h: Hash, types: Claims, now: u64, a: Artifact, t: Reg)
    requires t == WithArtifact(s, h, Rewritten(w, a, types, now))
    ensures Log(t, h) == Log(s, h)
  {
  }

  /** What attesting files decodes to a record with the same manifest. */
  lemma SameRecordRefiled(w: World, s: Reg, h: Hash, types: Claims, now: u64, a: Artifact, b: Artifact)
    requires Good(LawsOf(w), s) && h in s.artifacts && Stored(w, s, h) == Ok(a)
    requires Stored(w, WithArtifact(s, h, Rewritten(w, a, types, now)), h) == Ok(b)
    ensures b.manifest == a.manifest
  {
    var filed := StoredIs(w, s, h);
    RewriteFiled(w, h, s.artifacts[h], a, types, now);
    Artifacts.DecodeEncode(w.profile, Artifacts.WithAttestations(a, ExpertAttestations(w, a.manifest, types, now)).0);
  }

  // ---- completing with another command ----

  /** A publish stopped before its pointer is completed by rolling that tag back to the same artifact, at any time. */
  lemma StoppedPublishIsRolledBack(w: World, s: Reg, c: Command, d: Command)
    requires Honest(w) && Good(LawsOf(w), s) && TraceOf(w, s, c).result.Ok? && c.Publish?
    requires d.Rollback? && d.env == c.env && d.tag == c.tag && d.h == c.h
    ensures var t := Exec(w, s, Attempt(c, Some(1)));
            t.tags == s.tags && TraceOf(w, t, d).result == Ok(Report(c.h, Published)) &&
            (c.env, c.tag) in Final(t, TraceOf(w, t, d)).tags && Final(t, TraceOf(w, t, d)).tags[(c.env, c.tag)].target == c.h
  {
    var h, writes := CommandSafe(w, s, c);
    PublishedLogIsShort(w, LawsOf(w), s, c.h, c.env, c.tag, c.policy, c.now);
    StoppedOnce(LawsOf(w), s, TraceOf(w, s, c), writes);
    var t := Exec(w, s, Attempt(c, Some(1)));
    RollbackIs(w, t, d);
    RollbackAfter(w, LawsOf(w), s, t, d.env, d.tag, d.h, d.now, writes[0].e);
  }

  lemma StoppedOnce(l: Laws, s: Reg, tr: Trace, writes: seq<Write>)
    requires Good(l, s) && Played(l, s, tr.states, writes) && writes != []
    ensures Good(l, Stopped(s, tr, Some(1))) && Step(l, s, writes[0], Stopped(s, tr, Some(1)))
  {
    StoppedState(l, s, tr, writes, 1);
    FirstState(l, s, tr.states, writes);
  }

  lemma RollbackIs(w: World, t: Reg, d: Command)
    requires d.Rollback?
    ensures TraceOf(w, t, d) == RollbackTrace(w, t, d.env, d.tag, d.h, d.now)
  {
  }

  lemma RollbackAfter(w: World, l: Laws, s: Reg, t: Reg, env: Text, tag: Text, h: Hash, now: u64, e: Event)
    requires Honest(w) && l.chain == RegistryChain(w) && Good(l, t) && e.newState == Published
    requires Step(l, s, LogEvent(h, e), t) && |Log(s, h)| < 5
    ensures t.tags == s.tags && RollbackTrace(w, t, env, tag, h, now).result == Ok(Report(h, Published))
    ensures var u := Final(t, RollbackTrace(w, t, env, tag, h, now)); (env, tag) in u.tags && u.tags[(env, tag)].target == h
  {
    var writes := RollbackSafe(w, l, t, env, tag, h, now);
    RollbackPoints(w, t, env, tag, h, now);
  }

  lemma PublishedLogIsShort(w: World, l: Laws, s: Reg, h: Hash, env: Text, tag: Text, policy: PolicyChoice, now: u64)
    requires Honest(w) && l.chain == RegistryChain(w) && Good(l, s) && PublishTrace(w, s, h, env, tag, policy, now).result.Ok?
    ensures Log(s, h) != [] && |Log(s, h)| < 5
  {
    PublishedFromAttested(w, s, h, env, tag, policy, now);
    AttestedLogIsShort(w, l, s, h);
  }

  lemma AttestedLogIsShort(w: World, l: Laws, s: Reg, h: Hash)
    requires l.chain == RegistryChain(w) && Good(l, s) && Standing(w, s, h) == Ok(ExpertAttested)
    ensures Log(s, h) != [] && |Log(s, h)| < 5
  {
    StandingIs(w, l, s, h);
    ForwardRoom(l, s, h);
  }

  lemma PublishedFromAttested(w: World, s: Reg, h: Hash, env: Text, tag: Text, policy: PolicyChoice, now: u64)
    requires PublishTrace(w, s, h, env, tag, policy, now).result.Ok?
    ensures Standing(w, s, h) == Ok(ExpertAttested)
  {
  }

  lemma RollbackPoints(w: World, s: Reg, env: Text, tag: Text, h: Hash, now: u64)
    requires RollbackTrace(w, s, env, tag, h, now).result.Ok?
    ensures var u := Final(s, RollbackTrace(w, s, env, tag, h, now)); (env, tag) in u.tags && u.tags[(env, tag)].target == h
  {
  }

  // ---- what nothing completes ----

  /** A compile stopped after its draft event, or a check stopped after its block, leaves the artifact torn. */
  lemma StoppedIsTorn(w: World, s: Reg, c: Command, n: nat)
    requires Honest(w) && Good(LawsOf(w), s) && TraceOf(w, s, c).result.Ok? && 0 < n < |TraceOf(w, s, c).states|
    requires (c.Compile? && n == 2) || c.MlCheck?
    ensures Torn(Exec(w, s, Attempt(c, Some(n))), TraceOf(w, s, c).result.value.hash)
  {
    var h, writes := StoppedAfter(w, s, c, n);
    StoppedLeavesTorn(LawsOf(w), s, TraceOf(w, s, c).states, c, h, writes, n);
  }

  lemma StoppedLeavesTorn(l: Laws, s: Reg, states: seq<Reg>, c: Command, h: Hash, writes: seq<Write>, n: nat)
    requires Played(l, s, states, writes) && Shaped(c, true, h, writes) && 0 < n < |states|
    requires (c.Compile? && n == 2) || c.MlCheck?
    ensures Torn(states[n - 1], h)
  {
    assert Step(l, Before(s, states, n - 1), writes[n - 1], states[n - 1]);
  }

  lemma FreshCompileSucceeds(w: World, s: Reg, m: Manifest, payload: Payload, audit: AuditVersions, now: u64)
    requires Honest(w) && Good(LawsOf(w), s) && Compiled(w, m, payload, audit).Ok?
    requires Log(s, Compiled(w, m, payload, audit).value.0.manifest.hash) == []
    ensures var t := CompileTrace(w, s, m, payload, audit, false, now); var h := Compiled(w, m, payload, audit).value.0.manifest.hash;
            t.result == Ok(Report(h, StructurallyVerified)) && |t.states| == 3
  {
    var (a, kew) := Compiled(w, m, payload, audit).value;
    CompileFiled(w, m, payload, audit);
    var writes := StoreSafe(w, LawsOf(w), s, a.manifest.hash, kew, CompilerGate(w, kew), now);
  }

  /** Whatever can be compiled can be torn in its compile, from the empty registry. */
  lemma TornCompileIsReached(w: World, m: Manifest, payload: Payload, audit: AuditVersions, now: u64)
    requires Honest(w) && Compiled(w, m, payload, audit).Ok?
    ensures Torn(Run(w, EMPTY, [Attempt(Compile(m, payload, audit, false, now), Some(2))]),
                 Compiled(w, m, payload, audit).value.0.manifest.hash)
  {
    var x := Attempt(Compile(m, payload, audit, false, now), Some(2));
    EmptyIsGood(LawsOf(w));
    FreshCompileSucceeds(w, EMPTY, m, payload, audit, now);
    StoppedIsTorn(w, EMPTY, x.command, 2);
    RunOnce(w, EMPTY, x);
  }

  /** And in its check. */
  lemma TornCheckIsReached(w: World, m: Manifest, payload: Payload, audit: AuditVersions, now: u64)
    requires Honest(w) && Compiled(w, m, payload, audit).Ok?
    ensures var h := Compiled(w, m, payload, audit).value.0.manifest.hash;
            Torn(Run(w, EMPTY, [Attempt(Compile(m, payload, audit, false, now), None), Attempt(MlCheck(h, now), Some(1))]), h)
  {
    var h := Compiled(w, m, payload, audit).value.0.manifest.hash;
    var x, y := Attempt(Compile(m, payload, audit, false, now), None), Attempt(MlCheck(h, now), Some(1));
    EmptyIsGood(LawsOf(w));
    ExecKeepsGood(w, EMPTY, x);
    CompiledIsUnchecked(w, m, payload, audit, now);
    StoppedCheckIsTorn(w, Exec(w, EMPTY, x), y.command);
    RunTwice(w, EMPTY, x, y);
  }

  lemma StoppedCheckIsTorn(w: World, s: Reg, c: Command)
    requires Honest(w) && Good(LawsOf(w), s) && c.MlCheck?
    requires StateOf(Log(s, c.h)) == Some(StructurallyVerified) && c.h !in s.consistency
    ensures Torn(Exec(w, s, Attempt(c, Some(1))), c.h)
  {
    var writes := MlCheckSafe(w, LawsOf(w), s, c.h, c.now);
    StoppedIsTorn(w, s, c, 1);
  }

  lemma RunOnce(w: World, s: Reg, x: Attempt)
    ensures Run(w, s, [x]) == Exec(w, s, x)
  {
    assert [x][1..] == [];
  }

  lemma RunTwice(w: World, s: Reg, x: Attempt, y: Attempt)
    ensures Run(w, s, [x, y]) == Exec(w, Exec(w, s, x), y)
  {
    assert [x, y][1..] == [y];
    RunOnce(w, Exec(w, s, x), y);
  }

  lemma CompiledIsUnchecked(w: World, m: Manifest, payload: Payload, audit: AuditVersions, now: u64)
    requires Honest(w) && Compiled(w, m, payload, audit).Ok?
    ensures var h := Compiled(w, m, payload, audit).value.0.manifest.hash;
            var s := Exec(w, EMPTY, Attempt(Compile(m, payload, audit, false, now), None));
            StateOf(Log(s, h)) == Some(StructurallyVerified) && h !in s.consistency
  {
    var l := LawsOf(w);
    EmptyIsGood(l);
    FreshCompileSucceeds(w, EMPTY, m, payload, audit, now);
    var h, writes := CompileSafe(w, EMPTY, m, payload, audit, false, now);
    var t := CompileTrace(w, EMPTY, m, payload, audit, false, now);
    StoredLast(l, EMPTY, t.states, writes, h);
  }

  lemma StoredLast(l: Laws, s: Reg, states: seq<Reg>, writes: seq<Write>, h: Hash)
    requires Played(l, s, states, writes) && |writes| == 3 && Files(writes[0], h) && Logs(writes[1], h, Draft)
    requires Logs(writes[2], h, StructurallyVerified)
    ensures StateOf(Log(states[2], h)) == Some(StructurallyVerified) && states[2].consistency == s.consistency
  {
    assert Step(l, Before(s, states, 0), writes[0], states[0]);
    assert Step(l, Before(s, states, 1), writes[1], states[1]);
    assert Step(l, Before(s, states, 2), writes[2], states[2]);
  }

  /** Revoked in its log, with no record of the policy decided. */
  predicate Unrecorded(s: Reg, h: Hash) {
    StateOf(Log(s, h)) == Some(Revoked) && h !in s.revocations
  }

  /** A revocation stopped after its event leaves the artifact unrecorded. */
  lemma StoppedIsUnrecorded(w: World, s: Reg, c: Command)
    requires Honest(w) && Good(LawsOf(w), s) && TraceOf(w, s, c).result.Ok? && c.Revoke?
    ensures Unrecorded(Exec(w, s, Attempt(c, Some(1))), c.h)
  {
    var h, writes := CommandSafe(w, s, c);
    StoppedState(LawsOf(w), s, TraceOf(w, s, c), writes, 1);
    RevokedBeforeRecord(LawsOf(w), s, TraceOf(w, s, c).states, h, writes);
  }

  lemma RevokedBeforeRecord(l: Laws, s: Reg, states: seq<Reg>, h: Hash, writes: seq<Write>)
    requires Good(l, s) && Played(l, s, states, writes) && writes != [] && Logs(writes[0], h, Revoked)
    ensures Unrecorded(states[0], h)
  {
    assert Step(l, Before(s, states, 0), writes[0], states[0]);
    if StateOf(Log(s, h)) == Some(Revoked) {
      RevokedHasNoNext(l.chain, h, Log(s, h), writes[0].e);
    }
  }

  /** No record of this artifact among these. */
  predicate Unnoted(writes: seq<Write>, h: Hash) {
    forall i | 0 <= i < |writes| :: !Notes(writes[i], h)
  }

  lemma RevokedTakesNoNote(l: Laws, s: Reg, c: Command, ok: bool, h: Hash, states: seq<Reg>, writes: seq<Write>, g: Hash)
    requires Played(l, s, states, writes) && Shaped(c, ok, h, writes) && StateOf(Log(s, g)) == Some(Revoked)
    ensures Unnoted(writes, g)
  {
    if ok && c.Revoke? && g == h {
      assert Step(l, Before(s, states, 0), writes[0], states[0]);
      RevokedHasNoNext(l.chain, h, Log(s, h), writes[0].e);
    }
  }

  lemma UnnotedStays(l: Laws, s: Reg, states: seq<Reg>, writes: seq<Write>, i: nat, h: Hash)
    requires Played(l, s, states, writes) && Unnoted(writes, h) && i <= |states|
    ensures h in Before(s, states, i).revocations ==> h in s.revocations
  {
    forall j | 0 <= j < |states|
      ensures h in states[j].revocations ==> h in Before(s, states, j).revocations
    {
      assert Step(l, Before(s, states, j), writes[j], states[j]);
      assert !Notes(writes[j], h);
    }
    AlongStates(s, states, (a: Reg, b: Reg) => h in b.revocations ==> h in a.revocations, i);
  }

  lemma UnrecordedStays(l: Laws, s: Reg, c: Command, h: Hash, t: Trace, writes: seq<Write>, stop: Option<nat>, g: Hash)
    requires Played(l, s, t.states, writes) && Shaped(c, t.result.Ok?, h, writes) && Unrecorded(s, g)
    ensures Unrecorded(Stopped(s, t, stop), g)
  {
    RevokedTakesNoNote(l, s, c, t.result.Ok?, h, t.states, writes, g);
    StoppedGrowsLog(l, s, t, writes, stop, g);
    UnnotedStays(l, s, t.states, writes, WritesMade(s, t, stop), g);
  }

  /** However the run goes on, an unrecorded revocation never gets its record. */
  lemma {:induction false} UnrecordedIsFinal(w: World, s: Reg, attempts: seq<Attempt>, h: Hash)
    requires Honest(w) && Good(LawsOf(w), s) && Unrecorded(s, h)
    ensures Unrecorded(Run(w, s, attempts), h)
    decreases |attempts|
  {
    if attempts != [] {
      var x := attempts[0];
      var g, writes := CommandSafe(w, s, x.command);
      UnrecordedStays(LawsOf(w), s, x.command, g, TraceOf(w, s, x.command), writes, x.stop, h);
      ExecKeepsGood(w, s, x);
      UnrecordedIsFinal(w, Exec(w, s, x), attempts[1..], h);
    }
  }
}
