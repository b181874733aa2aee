/**
 The commands make only safe writes, so every registry they can reach, stopped anywhere, is good.
 */
module Runs {
  import opened Wrappers
  import opened Wire
  import opened Crypto
  import opened Records
  import opened Attestations
  import opened Events
  import opened Registry
  import opened Lifecycle
  import Artifacts

  // ---- what is filed ----

  ghost predicate Expertly(w: World, m: Manifest, att: Attestation) {
    exists t, now :: att == ExpertAttestation(w, m, t, now)
  }

  /** The bytes filed at an address: a canonical record sealed by the compiler, carrying the expert's own attestations. */
  ghost predicate Filed(w: World, h: Hash, kew: bytes, a: Artifact) {
    kew == Artifacts.Encode(a) && Artifacts.Canonical(w.profile, a) && Artifacts.IsSealed(w.suite, w.compilerKey, a) &&
    a.compilerSignature.keyId == COMPILER_KEY_ID && a.manifest.hash == h &&
    forall i | 0 <= i < |a.attestations| :: Expertly(w, a.manifest, a.attestations[i])
  }

  ghost predicate IsFiled(w: World, h: Hash, kew: bytes) {
    exists a :: Filed(w, h, kew, a)
  }

  /** Every type the built-in policy of the kind requires is there. */
  predicate Complete(a: Artifact) {
    forall t :: t in PolicyForKind(a.manifest.kind).required ==> Carries(t, a.attestations)
  }

  predicate IsBare(w: World, kew: bytes) {
    var r := Artifacts.Decode(w.profile, kew);
    r.Ok? && r.value.0.attestations == []
  }

  predicate IsComplete(w: World, kew: bytes) {
    var r := Artifacts.Decode(w.profile, kew);
    r.Ok? && Complete(r.value.0)
  }

  ghost function LawsOf(w: World): Laws {
    Laws(RegistryChain(w), (h: Hash, kew: bytes) => IsFiled(w, h, kew), (kew: bytes) => IsBare(w, kew), (kew: bytes) => IsComplete(w, kew))
  }

  // ---- state reads ----

  lemma StandingIs(w: World, l: Laws, s: Reg, h: Hash)
    requires l.chain == RegistryChain(w) && Good(l, s)
    ensures Standing(w, s, h) == if Log(s, h) == [] then Err(NoState) else Ok(StateOf(Log(s, h)).value)
  {
    if h in s.logs {
      assert LogOk(l.chain, h, s.logs[h]);
    }
  }

  // ---- building events ----

  lemma NextEventFacts(w: World, prior: Event, to: LifecycleState, kind: Text, authority: Text, stamped: Hash, now: u64)
    requires Honest(w)
    ensures var r := NextEvent(w, prior, to, kind, authority, stamped, now);
            (r.Ok? <==> prior.seqNo < U32_MAX) &&
            (r.Ok? ==>
               var e := r.value;
               e.artifactHash == prior.artifactHash && e.seqNo == prior.seqNo + 1 && e.priorState == Some(prior.newState) &&
               e.newState == to && e.kind == kind && e.prevHash == Some(RegistryChain(w).link(prior)) &&
               RegistryChain(w).signed(e))
  {
    if prior.seqNo < U32_MAX {
      var unsigned := Event(
        prior.artifactHash, prior.seqNo + 1, Some(prior.newState), to, kind, authority, SignerRole.Registry,
        Stamp(w.suite, w.tsaKey, stamped, now), Some(ChainHash(w.suite, prior)), ZERO_SIG);
      Events.SigningVerifies(w.suite, w.rootKey, unsigned);
    }
  }

  lemma DraftFacts(w: World, h: Hash, now: u64)
    requires Honest(w)
    ensures var e := DraftEvent(w, h, now);
            e.artifactHash == h && e.seqNo == 0 && e.priorState == None && e.newState == Draft && e.kind == EventKind(Draft) &&
            e.prevHash == None && RegistryChain(w).signed(e)
  {
    var unsigned := Event(
      h, 0, None, Draft, EventKind(Draft), ROOT_KEY_ID, SignerRole.Registry, Stamp(w.suite, w.tsaKey, h, now), None, ZERO_SIG);
    Events.SigningVerifies(w.suite, w.rootKey, unsigned);
  }

  /** May the commands append this to a log in that state? */
  predicate Allowed(from: LifecycleState, to: LifecycleState, kind: Text) {
    (Edge(from, to) && kind == EventKind(to)) || (from == Published && to == Published && kind == TAG_MOVED)
  }

  lemma NextFollows(k: Chain, h: Hash, log: seq<Event>, e: Event)
    requires LogOk(k, h, log) && log != [] && log[|log| - 1].seqNo < U32_MAX
    requires var prior := log[|log| - 1];
             e.artifactHash == prior.artifactHash && e.seqNo == prior.seqNo + 1 && e.priorState == Some(prior.newState) &&
             e.prevHash == Some(k.link(prior)) && k.signed(e) && Allowed(prior.newState, e.newState, e.kind)
    ensures Follows(k, h, log, e) && !Occupied(log, e) && Insert(log, e) == log + [e]
  {
    NumbersInOrder(k, log);
    assert Legal(h, StateOf(log[..|log| - 1]), log[|log| - 1]);
    FollowsKeepsLog(k, h, log, e);
  }

  lemma AdvanceFollows(w: World, s: Reg, h: Hash, to: LifecycleState, kind: Text, now: u64)
    requires Honest(w) && LogOk(RegistryChain(w), h, Log(s, h)) && Log(s, h) != []
    requires Allowed(StateOf(Log(s, h)).value, to, kind)
    ensures var r := Advance(w, s, h, to, kind, now);
            if |Log(s, h)| == U32_COUNT then r == Err(SequenceExhausted)
            else r.Ok? && var (t, e) := r.value;
                 t == Applied(s, LogEvent(h, e)) && Follows(RegistryChain(w), h, Log(s, h), e) && e.newState == to && e.kind == kind &&
                 e.seqNo == |Log(s, h)|
  {
    var log := Log(s, h);
    var prior := log[|log| - 1];
    LastNumber(RegistryChain(w), h, log);
    HeadIs(w, s, h);
    NextEventFacts(w, prior, to, kind, ROOT_KEY_ID, h, now);
    if prior.seqNo < U32_MAX {
      NextFollows(RegistryChain(w), h, log, NextEvent(w, prior, to, kind, ROOT_KEY_ID, h, now).value);
    }
  }

  lemma LastNumber(k: Chain, h: Hash, log: seq<Event>)
    requires LogOk(k, h, log) && log != []
    ensures log[|log| - 1].seqNo == |log| - 1
  {
    NumbersInOrder(k, log);
  }

  lemma HeadIs(w: World, s: Reg, h: Hash)
    requires LogOk(RegistryChain(w), h, Log(s, h)) && Log(s, h) != []
    ensures Head(w, s, h) == Ok(Log(s, h)[|Log(s, h)| - 1])
  {
  }

  // ---- the shape of a command's writes ----

  predicate Files(x: Write, h: Hash) {
    x.PutBytes? && x.h == h
  }

  predicate Logs(x: Write, h: Hash, to: LifecycleState) {
    x.LogEvent? && x.h == h && x.e.newState == to
  }

  predicate Points(x: Write, h: Hash) {
    x.MovePointer? && x.p.target == h
  }

  predicate Blocks(x: Write, h: Hash) {
    x.PutBlock? && x.h == h
  }

  predicate Notes(x: Write, h: Hash) {
    x.PutRecord? && x.h == h
  }

  /** One more event on a good log leaves a good registry in the new state. */
  lemma EventStep(l: Laws, s: Reg, h: Hash, e: Event, t: Reg)
    requires Good(l, s) && Step(l, s, LogEvent(h, e), t)
    ensures Good(l, t) && Log(t, h) == Log(s, h) + [e] && StateOf(Log(t, h)) == Some(e.newState)
  {
    SafeKeepsGood(l, s, LogEvent(h, e));
  }

  lemma GoodLog(l: Laws, s: Reg, h: Hash)
    requires Good(l, s) && Log(s, h) != []
    ensures LogOk(l.chain, h, Log(s, h)) && h in s.artifacts
  {
  }

  lemma ReportedIs(w: World, l: Laws, s: Reg, h: Hash)
    requires l.chain == RegistryChain(w) && Good(l, s) && Log(s, h) != []
    ensures Reported(w, s, h) == Ok(Report(h, StateOf(Log(s, h)).value))
  {
    StandingIs(w, l, s, h);
  }

  lemma AdvanceSafe(w: World, l: Laws, s: Reg, h: Hash, to: LifecycleState, kind: Text, now: u64) returns (t: Reg, e: Event)
    requires Honest(w) && l.chain == RegistryChain(w) && Good(l, s) && Log(s, h) != [] && |Log(s, h)| < U32_COUNT
    requires Allowed(StateOf(Log(s, h)).value, to, kind) && (to == MlChecked ==> h in s.consistency)
    ensures Advance(w, s, h, to, kind, now) == Ok((t, e)) && Step(l, s, LogEvent(h, e), t) && Good(l, t)
    ensures Log(t, h) == Log(s, h) + [e] && e.newState == to && e.seqNo == |Log(s, h)|
    ensures Reported(w, t, h) == Ok(Report(h, to))
  {
    GoodLog(l, s, h);
    AdvanceFollows(w, s, h, to, kind, now);
    var r := Advance(w, s, h, to, kind, now).value;
    t, e := r.0, r.1;
    EventStep(l, s, h, e, t);
    ReportedIs(w, l, t, h);
  }

  lemma AdvanceFull(w: World, l: Laws, s: Reg, h: Hash, to: LifecycleState, kind: Text, now: u64)
    requires Honest(w) && l.chain == RegistryChain(w) && Good(l, s) && Log(s, h) != [] && |Log(s, h)| == U32_COUNT
    requires Allowed(StateOf(Log(s, h)).value, to, kind)
    ensures Advance(w, s, h, to, kind, now) == Err(SequenceExhausted)
  {
    GoodLog(l, s, h);
    AdvanceFollows(w, s, h, to, kind, now);
  }

  /** A log that has not published has room. */
  lemma ForwardRoom(l: Laws, s: Reg, h: Hash)
    requires Good(l, s) && Log(s, h) != []
    ensures |Log(s, h)| <= U32_COUNT && (Rank(StateOf(Log(s, h)).value) < 4 ==> |Log(s, h)| < 5)
  {
    GoodLog(l, s, h);
    if Rank(StateOf(Log(s, h)).value) < 4 {
      StateBeforePublished(l.chain, h, Log(s, h));
    }
  }

  lemma BlockStep(l: Laws, s: Reg, h: Hash, block: ConsistencyBlock, t: Reg)
    requires Good(l, s) && Step(l, s, PutBlock(h, block), t)
    ensures Good(l, t) && Log(t, h) == Log(s, h) && h in t.consistency
  {
    SafeKeepsGood(l, s, PutBlock(h, block));
  }

  lemma MlCheckTraceIs(w: World, s: Reg, h: Hash, now: u64, s1: Reg, s2: Reg, e: Event)
    requires Standing(w, s, h) == Ok(StructurallyVerified) && WithConsistency(s, h, DevStandIn(now)) == Ok(s1)
    requires Advance(w, s1, h, MlChecked, EventKind(MlChecked), now) == Ok((s2, e))
    ensures MlCheckTrace(w, s, h, now) == Trace([s1, s2], Reported(w, s2, h))
  {
  }

  lemma MlCheckSafe(w: World, l: Laws, s: Reg, h: Hash, now: u64) returns (writes: seq<Write>)
    requires Honest(w) && l.chain == RegistryChain(w) && Good(l, s)
    ensures var t := MlCheckTrace(w, s, h, now);
            Played(l, s, t.states, writes) &&
            (t.result.Ok? <==> StateOf(Log(s, h)) == Some(StructurallyVerified) && h !in s.consistency) &&
            if t.result.Ok? then
              |writes| == 2 && t.result == Ok(Report(h, MlChecked)) && Blocks(writes[0], h) && Logs(writes[1], h, MlChecked)
            else t.states == []
  {
    StandingIs(w, l, s, h);
    writes := [];
    if StateOf(Log(s, h)) == Some(StructurallyVerified) && h !in s.consistency {
      var block := PutBlock(h, DevStandIn(now));
      var s1 := Applied(s, block);
      BlockStep(l, s, h, block.block, s1);
      ForwardRoom(l, s, h);
      var s2, e := AdvanceSafe(w, l, s1, h, MlChecked, EventKind(MlChecked), now);
      MlCheckTraceIs(w, s, h, now, s1, s2, e);
      PlayedTwice(l, s, block, s1, LogEvent(h, e), s2);
      writes := [block, LogEvent(h, e)];
    }
  }

  lemma DeprecateTraceIs(w: World, s: Reg, h: Hash, now: u64)
    requires Standing(w, s, h) == Ok(Published)
    ensures DeprecateTrace(w, s, h, now) ==
            match Advance(w, s, h, Deprecated, EventKind(Deprecated), now)
            case Err(e) => Fail([], e)
            case Ok((t, _)) => Trace([t], Reported(w, t, h))
  {
  }

  lemma DeprecateSafe(w: World, l: Laws, s: Reg, h: Hash, now: u64) returns (writes: seq<Write>)
    requires Honest(w) && l.chain == RegistryChain(w) && Good(l, s)
    ensures var t := DeprecateTrace(w, s, h, now);
            Played(l, s, t.states, writes) &&
            (t.result.Ok? <==> StateOf(Log(s, h)) == Some(Published) && |Log(s, h)| < U32_COUNT) &&
            if t.result.Ok? then |writes| == 1 && t.result == Ok(Report(h, Deprecated)) && Logs(writes[0], h, Deprecated)
            else t.states == []
  {
    StandingIs(w, l, s, h);
    writes := [];
    if StateOf(Log(s, h)) == Some(Published) {
      DeprecateTraceIs(w, s, h, now);
      ForwardRoom(l, s, h);
      if |Log(s, h)| < U32_COUNT {
        var t, e := AdvanceSafe(w, l, s, h, Deprecated, EventKind(Deprecated), now);
        PlayedOnce(l, s, LogEvent(h, e), t);
        writes := [LogEvent(h, e)];
      } else {
        AdvanceFull(w, l, s, h, Deprecated, EventKind(Deprecated), now);
      }
    }
  }

  /** The record of a revocation just logged. */
  lemma RecordStep(w: World, l: Laws, s: Reg, h: Hash, record: RevocationRecord, e: Event, t: Reg)
    requires l.chain == RegistryChain(w) && Good(l, s) && StateOf(Log(s, h)) != Some(Revoked)
    requires Good(l, t) && Step(l, s, LogEvent(h, e), t) && StateOf(Log(t, h)) == Some(Revoked)
    ensures var u := Applied(t, PutRecord(h, record));
            WithRevocation(t, h, record) == Ok(u) && Step(l, t, PutRecord(h, record), u) &&
            Reported(w, u, h) == Ok(Report(h, Revoked))
  {
    assert h !in s.revocations;
    SafeKeepsGood(l, t, PutRecord(h, record));
    var u := Applied(t, PutRecord(h, record));
    assert Log(u, h) == Log(t, h);
    ReportedIs(w, l, u, h);
  }

  lemma RecordSafe(
    w: World, l: Laws, s: Reg, h: Hash, policy: RevocationPolicy, class_: Option<ReasonClass>, reason: Option<Text>, now: u64)
    returns (writes: seq<Write>)
    requires Honest(w) && l.chain == RegistryChain(w) && Good(l, s)
    requires StateOf(Log(s, h)) == Some(Published) || StateOf(Log(s, h)) == Some(Deprecated)
    ensures var t := RecordTrace(w, s, h, policy, class_, reason, now);
            Played(l, s, t.states, writes) && (t.result.Ok? <==> |Log(s, h)| < U32_COUNT) &&
            if t.result.Ok? then
              |writes| == 2 && t.result == Ok(Report(h, Revoked)) && Logs(writes[0], h, Revoked) && Notes(writes[1], h)
            else t.states == []
  {
    ForwardRoom(l, s, h);
    writes := [];
    if |Log(s, h)| < U32_COUNT {
      writes := RecordRoom(w, l, s, h, policy, class_, reason, now);
    } else {
      RecordFull(w, l, s, h, policy, class_, reason, now);
    }
  }

  lemma RecordFull(
    w: World, l: Laws, s: Reg, h: Hash, policy: RevocationPolicy, class_: Option<ReasonClass>, reason: Option<Text>, now: u64)
    requires Honest(w) && l.chain == RegistryChain(w) && Good(l, s) && |Log(s, h)| == U32_COUNT
    requires StateOf(Log(s, h)) == Some(Published) || StateOf(Log(s, h)) == Some(Deprecated)
    ensures RecordTrace(w, s, h, policy, class_, reason, now) == Fail([], SequenceExhausted)
  {
    AdvanceFull(w, l, s, h, Revoked, EventKind(Revoked), now);
  }

  lemma RecordRoom(
    w: World, l: Laws, s: Reg, h: Hash, policy: RevocationPolicy, class_: Option<ReasonClass>, reason: Option<Text>, now: u64)
    returns (writes: seq<Write>)
    requires Honest(w) && l.chain == RegistryChain(w) && Good(l, s) && |Log(s, h)| < U32_COUNT
    requires StateOf(Log(s, h)) == Some(Published) || StateOf(Log(s, h)) == Some(Deprecated)
    ensures var t := RecordTrace(w, s, h, policy, class_, reason, now);
            Played(l, s, t.states, writes) && |writes| == 2 && t.result == Ok(Report(h, Revoked)) &&
            Logs(writes[0], h, Revoked) && Notes(writes[1], h)
  {
    var s1, e := AdvanceSafe(w, l, s, h, Revoked, EventKind(Revoked), now);
    var record := RevocationRecord(policy, reason, e.seqNo, policy.AuditOnly?, class_);
    RecordStep(w, l, s, h, record, e, s1);
    writes := RecordOk(w, l, s, h, policy, class_, reason, now, s1, e, record);
  }

  lemma RecordOk(
    w: World, l: Laws, s: Reg, h: Hash, policy: RevocationPolicy, class_: Option<ReasonClass>, reason: Option<Text>, now: u64, s1: Reg,
    e: Event, record: RevocationRecord)
    returns (writes: seq<Write>)
    requires Advance(w, s, h, Revoked, EventKind(Revoked), now) == Ok((s1, e)) && Step(l, s, LogEvent(h, e), s1) && e.newState == Revoked
    requires record == RevocationRecord(policy, reason, e.seqNo, policy.AuditOnly?, class_)
    requires var x := PutRecord(h, record);
             WithRevocation(s1, h, record) == Ok(Applied(s1, x)) && Step(l, s1, x, Applied(s1, x)) &&
             Reported(w, Applied(s1, x), h) == Ok(Report(h, Revoked))
    ensures var t := RecordTrace(w, s, h, policy, class_, reason, now);
            Played(l, s, t.states, writes) && |writes| == 2 && t.result == Ok(Report(h, Revoked)) &&
            Logs(writes[0], h, Revoked) && Notes(writes[1], h)
  {
    var x := PutRecord(h, record);
    PlayedTwice(l, s, LogEvent(h, e), s1, x, Applied(s1, x));
    writes := [LogEvent(h, e), x];
  }

  lemma RevokeTraceIs(
    w: World, s: Reg, h: Hash, recorded: Option<RevocationPolicy>, class_: Option<ReasonClass>, reason: Option<Text>, now: u64,
    policy: RevocationPolicy, state: LifecycleState)
    requires RecordedPolicy(recorded, class_) == Ok(policy) && Standing(w, s, h) == Ok(state) && (state == Published || state == Deprecated)
    ensures RevokeTrace(w, s, h, recorded, class_, reason, now) == RecordTrace(w, s, h, policy, class_, reason, now)
  {
  }

  lemma RevokeIdle(
    w: World, s: Reg, h: Hash, recorded: Option<RevocationPolicy>, class_: Option<ReasonClass>, reason: Option<Text>, now: u64)
    requires RecordedPolicy(recorded, class_).Err? || (Standing(w, s, h) != Ok(Published) && Standing(w, s, h) != Ok(Deprecated))
    ensures var t := RevokeTrace(w, s, h, recorded, class_, reason, now); t.states == [] && t.result.Err?
  {
  }

  lemma RevokeSafe(
    w: World, l: Laws, s: Reg, h: Hash, recorded: Option<RevocationPolicy>, class_: Option<ReasonClass>, reason: Option<Text>, now: u64)
    returns (writes: seq<Write>)
    requires Honest(w) && l.chain == RegistryChain(w) && Good(l, s)
    ensures var t := RevokeTrace(w, s, h, recorded, class_, reason, now);
            Played(l, s, t.states, writes) &&
            (t.result.Ok? <==>
               RecordedPolicy(recorded, class_).Ok? && |Log(s, h)| < U32_COUNT &&
               (StateOf(Log(s, h)) == Some(Published) || StateOf(Log(s, h)) == Some(Deprecated))) &&
            if t.result.Ok? then
              |writes| == 2 && t.result == Ok(Report(h, Revoked)) && Logs(writes[0], h, Revoked) && Notes(writes[1], h)
            else t.states == []
  {
    StandingIs(w, l, s, h);
    writes := [];
    var policy := RecordedPolicy(recorded, class_);
    if policy.Ok? && (StateOf(Log(s, h)) == Some(Published) || StateOf(Log(s, h)) == Some(Deprecated)) {
      RevokeTraceIs(w, s, h, recorded, class_, reason, now, policy.value, StateOf(Log(s, h)).value);
      writes := RecordSafe(w, l, s, h, policy.value, class_, reason, now);
    } else {
      RevokeIdle(w, s, h, recorded, class_, reason, now);
    }
  }

  lemma PointerStep(w: World, l: Laws, s: Reg, env: Text, tag: Text, p: Pointer)
    requires l.chain == RegistryChain(w) && Good(l, s) && StateOf(Log(s, p.target)) == Some(Published)
    ensures var t := WithPointer(s, env, tag, p);
            Step(l, s, MovePointer(env, tag, p), t) && Reported(w, t, p.target) == Ok(Report(p.target, Published))
  {
    ReachedNow(Log(s, p.target));
    SafeKeepsGood(l, s, MovePointer(env, tag, p));
    var t := WithPointer(s, env, tag, p);
    assert Log(t, p.target) == Log(s, p.target);
    ReportedIs(w, l, t, p.target);
  }

  lemma PointTraceIs(w: World, s: Reg, h: Hash, env: Text, tag: Text, kind: Text, now: u64, s1: Reg, e: Event)
    requires Advance(w, s, h, Published, kind, now) == Ok((s1, e))
    ensures var s2 := WithPointer(s1, env, tag, Pointer(h, kind, e.seqNo));
            PointTrace(w, s, h, env, tag, kind, now) == Trace([s1, s2], Reported(w, s2, h))
  {
  }

  /** The shared tail of publishing and rolling back. */
  lemma PointSafe(w: World, l: Laws, s: Reg, h: Hash, env: Text, tag: Text, kind: Text, now: u64) returns (writes: seq<Write>)
    requires Honest(w) && l.chain == RegistryChain(w) && Good(l, s) && Log(s, h) != []
    requires Allowed(StateOf(Log(s, h)).value, Published, kind)
    ensures var t := PointTrace(w, s, h, env, tag, kind, now);
            Played(l, s, t.states, writes) && (t.result.Ok? <==> |Log(s, h)| < U32_COUNT) &&
            if t.result.Ok? then
              |writes| == 2 && t.result == Ok(Report(h, Published)) && Logs(writes[0], h, Published) && Points(writes[1], h)
            else t.states == []
  {
    ForwardRoom(l, s, h);
    writes := [];
    if |Log(s, h)| < U32_COUNT {
      var s1, e := AdvanceSafe(w, l, s, h, Published, kind, now);
      writes := PointOk(w, l, s, h, env, tag, kind, now, s1, e);
    } else {
      AdvanceFull(w, l, s, h, Published, kind, now);
    }
  }

  lemma PointOk(w: World, l: Laws, s: Reg, h: Hash, env: Text, tag: Text, kind: Text, now: u64, s1: Reg, e: Event)
    returns (writes: seq<Write>)
    requires l.chain == RegistryChain(w) && Good(l, s1) && Step(l, s, LogEvent(h, e), s1)
    requires StateOf(Log(s1, h)) == Some(Published) && e.newState == Published
    requires Advance(w, s, h, Published, kind, now) == Ok((s1, e))
    ensures var t := PointTrace(w, s, h, env, tag, kind, now);
            Played(l, s, t.states, writes) && |writes| == 2 && t.result == Ok(Report(h, Published)) &&
            writes[0] == LogEvent(h, e) && Points(writes[1], h)
  {
    var x := MovePointer(env, tag, Pointer(h, kind, e.seqNo));
    PointerStep(w, l, s1, env, tag, x.p);
    PointTraceIs(w, s, h, env, tag, kind, now, s1, e);
    PlayedTwice(l, s, LogEvent(h, e), s1, x, WithPointer(s1, env, tag, x.p));
    writes := [LogEvent(h, e), x];
  }

  lemma RollbackSafe(w: World, l: Laws, s: Reg, env: Text, tag: Text, h: Hash, now: u64) returns (writes: seq<Write>)
    requires Honest(w) && l.chain == RegistryChain(w) && Good(l, s)
    ensures var t := RollbackTrace(w, s, env, tag, h, now);
            Played(l, s, t.states, writes) &&
            (t.result.Ok? <==> StateOf(Log(s, h)) == Some(Published) && |Log(s, h)| < U32_COUNT) &&
            if t.result.Ok? then
              |writes| == 2 && t.result == Ok(Report(h, Published)) && Logs(writes[0], h, Published) && Points(writes[1], h)
            else t.states == []
  {
    StandingIs(w, l, s, h);
    writes := [];
    if StateOf(Log(s, h)) == Some(Published) {
      writes := PointSafe(w, l, s, h, env, tag, TAG_MOVED, now);
    }
  }

  // ---- the artifact writes ----

  lemma StoredIs(w: World, s: Reg, h: Hash) returns (a: Artifact)
    requires Good(LawsOf(w), s) && h in s.artifacts
    ensures Filed(w, h, s.artifacts[h], a) && Stored(w, s, h) == Ok(a)
  {
    assert LawsOf(w).filed(h, s.artifacts[h]);
    a :| Filed(w, h, s.artifacts[h], a);
    Artifacts.DecodeEncode(w.profile, a);
  }

  /** What attesting files: the same sealed record, now carrying one expert attestation per type. */
  lemma RewriteFiled(w: World, h: Hash, kew: bytes, a: Artifact, types: Claims, now: u64)
    requires Filed(w, h, kew, a)
    ensures var (b, attested) := Artifacts.WithAttestations(a, ExpertAttestations(w, a.manifest, types, now));
            Filed(w, h, attested, b) && b.manifest == a.manifest
  {
    var atts := ExpertAttestations(w, a.manifest, types, now);
    Artifacts.AttestationsStayOutside(w.suite, w.profile, w.compilerKey, a, atts);
    forall i | 0 <= i < |atts|
      ensures Expertly(w, a.manifest, atts[i])
    {
      assert atts[i] == ExpertAttestation(w, a.manifest, types[i], now);
    }
  }

  lemma CompiledIs(w: World, m: Manifest, payload: Payload, audit: AuditVersions)
    requires Honest(w) && Compiled(w, m, payload, audit).Ok?
    ensures var (a, kew) := Compiled(w, m, payload, audit).value;
            kew == Artifacts.Encode(a) && Artifacts.Canonical(w.profile, a) && Artifacts.IsSealed(w.suite, w.compilerKey, a) &&
            a.compilerSignature.keyId == COMPILER_KEY_ID && a.attestations == []
  {
    Artifacts.AssembleRoundTrip(
      w.suite, w.profile, m.(kind := CompiledKind(payload)), payload, audit, w.compilerKey, COMPILER_KEY_ID);
  }

  /** The compiler gate accepts what the compiler sealed. */
  lemma GatePasses(w: World, a: Artifact)
    requires Honest(w) && Artifacts.Canonical(w.profile, a) && Artifacts.IsSealed(w.suite, w.compilerKey, a)
    ensures var gate := CompilerGate(w, Artifacts.Encode(a)); gate.structuralClean && gate.compilerSignatureValid
  {
    Artifacts.SealedVerifies(w.suite, w.profile, w.compilerKey, a);
    PrefixSlice(Artifacts.Envelope(a), Artifacts.Encode(a));
  }

  lemma PrefixSlice(p: bytes, b: bytes)
    requires p <= b
    ensures |p| <= |b| && b[..|p|] == p
  {
  }

  lemma BareIs(w: World, a: Artifact)
    requires Artifacts.Canonical(w.profile, a)
    ensures IsBare(w, Artifacts.Encode(a)) <==> a.attestations == []
  {
    Artifacts.DecodeEncode(w.profile, a);
  }

  /** What compiling files: a bare record sealed under its own address. */
  lemma CompileFiled(w: World, m: Manifest, payload: Payload, audit: AuditVersions)
    requires Honest(w) && Compiled(w, m, payload, audit).Ok?
    ensures var (a, kew) := Compiled(w, m, payload, audit).value; var gate := CompilerGate(w, kew);
            LawsOf(w).filed(a.manifest.hash, kew) && LawsOf(w).bare(kew) && gate.structuralClean && gate.compilerSignatureValid
  {
    CompiledIs(w, m, payload, audit);
    SealedBareFiled(w, Compiled(w, m, payload, audit).value.0);
  }

  lemma SealedBareFiled(w: World, a: Artifact)
    requires Honest(w) && Artifacts.Canonical(w.profile, a) && Artifacts.IsSealed(w.suite, w.compilerKey, a)
    requires a.compilerSignature.keyId == COMPILER_KEY_ID && a.attestations == []
    ensures var kew := Artifacts.Encode(a); var gate := CompilerGate(w, kew);
            LawsOf(w).filed(a.manifest.hash, kew) && LawsOf(w).bare(kew) && gate.structuralClean && gate.compilerSignatureValid
  {
    GatePasses(w, a);
    SealedBare(w, a);
  }

  lemma SealedBare(w: World, a: Artifact)
    requires Artifacts.Canonical(w.profile, a) && Artifacts.IsSealed(w.suite, w.compilerKey, a)
    requires a.compilerSignature.keyId == COMPILER_KEY_ID && a.attestations == []
    ensures IsFiled(w, a.manifest.hash, Artifacts.Encode(a)) && IsBare(w, Artifacts.Encode(a))
  {
    BareIs(w, a);
    assert Filed(w, a.manifest.hash, Artifacts.Encode(a), a);
  }

  // ---- the expert's attestations verify ----

  /** A local checker whose directory holds the expert's key for these types. */
  ghost predicate KnowsExpert(w: World, k: Checker, types: seq<AttestationType>) {
    k.suite == w.suite && k.tsaPublicKey == w.suite.publicOf(w.tsaKey) && k.artifactHash == k.manifest.hash &&
    k.context.environment == LOCAL && k.context.legalSource.None? &&
    Lookup(k.directory, EXPERT_KEY_ID) == Some(ExpertEntry(w, types))
  }

  /** The expert's attestation of a manifest verifies for as long as the key window is open, whenever it was made. */
  lemma ExpertVerifies(w: World, k: Checker, types: seq<AttestationType>, a: Attestation)
    requires Honest(w) && KnowsExpert(w, k, types) && Expertly(w, k.manifest, a)
    requires a.claim in types && a.policyVersion in k.context.supportedVersions
    ensures Valid(k, a) <==> k.context.now < U64_MAX
  {
    var t, when :| a == ExpertAttestation(w, k.manifest, t, when);
    var m := k.manifest;
    var unsigned := Attestation(
      m.hash, WholeArtifact, t, TEST_EXPERT, EXPERT_KEY_ID, RoleFor(t), m.regimeId, m.effectiveFrom, m.effectiveTo,
      m.sourceCorpusHash, m.irSchemaVersion, m.compilerVersion, POLICY_VERSION, None, Stamp(w.suite, w.tsaKey, m.hash, when),
      None, None, ZERO_SIG);
    Attestations.SigningVerifies(w.suite, w.expertKey, unsigned, ZERO_SIG);
    ExpertBinds(w, m, unsigned, a, t, when);
    ExpertAccepted(w, k, types, a);
  }

  /** What is true of an expert attestation, whoever checks it. */
  predicate BindsTo(w: World, m: Manifest, a: Attestation) {
    a.artifactHash == m.hash && a.keyId == EXPERT_KEY_ID && a.signerRole == RoleFor(a.claim) && a.regimeId == m.regimeId &&
    a.irSchemaVersion == m.irSchemaVersion && a.compilerVersion == m.compilerVersion && a.expiration.None? &&
    a.policyVersion == POLICY_VERSION && a.timestamp.class_.Mock? &&
    VerifiesAsMock(w.suite, w.suite.publicOf(w.tsaKey), a.timestamp, m.hash) &&
    Attestations.SignatureHolds(w.suite, w.suite.publicOf(w.expertKey), a)
  }

  lemma ExpertBinds(w: World, m: Manifest, unsigned: Attestation, a: Attestation, t: AttestationType, when: u64)
    requires Honest(w) && a == SignAttestation(w.suite, w.expertKey, unsigned)
    requires unsigned == Attestation(
      m.hash, WholeArtifact, t, TEST_EXPERT, EXPERT_KEY_ID, RoleFor(t), m.regimeId, m.effectiveFrom, m.effectiveTo,
      m.sourceCorpusHash, m.irSchemaVersion, m.compilerVersion, POLICY_VERSION, None, Stamp(w.suite, w.tsaKey, m.hash, when),
      None, None, ZERO_SIG)
    requires Attestations.SignatureHolds(w.suite, w.suite.publicOf(w.expertKey), a)
    ensures BindsTo(w, m, a)
  {
    var message := MockMessage(m.hash, when);
    assert w.suite.verify(w.suite.publicOf(w.tsaKey), message, w.suite.sign(w.tsaKey, message));
  }

  lemma ExpertAccepted(w: World, k: Checker, types: seq<AttestationType>, a: Attestation)
    requires KnowsExpert(w, k, types) && BindsTo(w, k.manifest, a)
    requires a.claim in types && a.policyVersion in k.context.supportedVersions
    ensures Valid(k, a) <==> k.context.now < U64_MAX
  {
    ValidExactly(k, a);
  }

  /** A set of expert attestations is accepted when the clock is in the window, counts are met and approvals are covered. */
  lemma ExpertSetAccepted(w: World, k: Checker, types: seq<AttestationType>, policy: Policy, atts: seq<Attestation>)
    requires Honest(w) && KnowsExpert(w, k, types)
    requires forall a :: a in atts ==> Expertly(w, k.manifest, a) && a.claim in types && a.policyVersion in k.context.supportedVersions
    ensures SetRejections(Checks(k), k.manifest.kind, policy, atts) == [] <==>
            (atts == [] || k.context.now < U64_MAX) &&
            (forall t :: t in policy.required ==> Count(t, atts) >= Required(policy, t)) &&
            (Carries(PublicationApproval, atts) ==> forall t :: t in CoTypes(k.manifest.kind) ==> Carries(t, atts))
  {
    CheckBindsHash(k);
    NoRejectionsIffSetHolds(Checks(k), k.manifest.kind, policy, atts, k.artifactHash);
    forall a | a in atts
      ensures Checks(k)(a).None? <==> k.context.now < U64_MAX
    {
      ExpertVerifies(w, k, types, a);
    }
    if atts != [] {
      assert atts[0] in atts;
    }
  }

  lemma ExpertTerms(w: World, m: Manifest, a: Attestation)
    requires Expertly(w, m, a)
    ensures a.policyVersion == POLICY_VERSION && a.claim in ALL_TYPES
  {
    var t, now :| a == ExpertAttestation(w, m, t, now);
    assert t in ALL_TYPES;
  }

  /** What the local gate accepts of a filed artifact. */
  lemma LocalGate(w: World, a: Artifact, policy: Policy, now: u64)
    requires Honest(w) && forall x :: x in a.attestations ==> Expertly(w, a.manifest, x)
    ensures LocalRejections(w, a, policy, now) == [] <==>
            (a.attestations == [] || now < U64_MAX) &&
            (forall t :: t in policy.required ==> Count(t, a.attestations) >= Required(policy, t)) &&
            (Carries(PublicationApproval, a.attestations) ==>
               forall t :: t in CoTypes(a.manifest.kind) ==> Carries(t, a.attestations))
  {
    forall x | x in a.attestations
      ensures x.policyVersion == POLICY_VERSION && x.claim in ALL_TYPES
    {
      ExpertTerms(w, a.manifest, x);
    }
    ExpertSetAccepted(w, LocalChecker(w, a.manifest, now), ALL_TYPES, policy, a.attestations);
  }

  lemma AttestedAt(w: World, m: Manifest, types: Claims, now: u64, i: nat)
    requires i < |types|
    ensures var a := ExpertAttestations(w, m, types, now)[i]; a.claim == types[i] && Expertly(w, m, a)
  {
    assert ExpertAttestations(w, m, types, now)[i] == ExpertAttestation(w, m, types[i], now);
  }

  lemma AttestedTypes(w: World, m: Manifest, types: Claims, now: u64)
    ensures forall t :: Carries(t, ExpertAttestations(w, m, types, now)) <==> t in types
    ensures forall a :: a in ExpertAttestations(w, m, types, now) ==> Expertly(w, m, a)
  {
    var atts := ExpertAttestations(w, m, types, now);
    forall i | 0 <= i < |atts|
      ensures atts[i].claim == types[i] && Expertly(w, m, atts[i])
    {
      AttestedAt(w, m, types, now, i);
    }
    CarriesByIndex(atts, types);
  }

  lemma CarriesByIndex(atts: seq<Attestation>, types: seq<AttestationType>)
    requires |atts| == |types| && forall i | 0 <= i < |atts| :: atts[i].claim == types[i]
    ensures forall t :: Carries(t, atts) <==> t in types
  {
    forall t: AttestationType
      ensures Carries(t, atts) <==> t in types
    {
      if t in types {
        var i :| 0 <= i < |types| && types[i] == t;
        assert atts[i] in atts;
      }
    }
  }

  // ---- attest, publish, compile ----

  lemma ArtifactStep(l: Laws, s: Reg, h: Hash, kew: bytes)
    requires Good(l, s) && l.filed(h, kew) && (l.bare(kew) || StateOf(Log(s, h)) == Some(MlChecked))
    ensures var t := WithArtifact(s, h, kew);
            Step(l, s, PutBytes(h, kew), t) && Good(l, t) && Log(t, h) == Log(s, h)
  {
    SafeKeepsGood(l, s, PutBytes(h, kew));
  }

  lemma FileSafe(w: World, l: Laws, s: Reg, h: Hash, kew: bytes, rejections: seq<Rejection>, now: u64) returns (writes: seq<Write>)
    requires Honest(w) && l.chain == RegistryChain(w) && Good(l, s)
    requires l.filed(h, kew) && StateOf(Log(s, h)) == Some(MlChecked)
    ensures var t := FileTrace(w, s, h, h, kew, rejections, now);
            Played(l, s, t.states, writes) && (t.result.Ok? <==> rejections == []) &&
            if t.result.Ok? then
              |writes| == 2 && t.result == Ok(Report(h, ExpertAttested)) && Files(writes[0], h) && Logs(writes[1], h, ExpertAttested)
            else |writes| == 1 && Files(writes[0], h)
  {
    ArtifactStep(l, s, h, kew);
    if rejections == [] {
      writes := FileOk(w, l, s, h, kew, now, WithArtifact(s, h, kew));
    } else {
      FileRefused(w, s, h, kew, rejections, now);
      PlayedOnce(l, s, PutBytes(h, kew), WithArtifact(s, h, kew));
      writes := [PutBytes(h, kew)];
    }
  }

  lemma FileRefused(w: World, s: Reg, h: Hash, kew: bytes, rejections: seq<Rejection>, now: u64)
    requires rejections != []
    ensures FileTrace(w, s, h, h, kew, rejections, now) == Fail([WithArtifact(s, h, kew)], AttestationSetRejected(rejections))
  {
    assert [WithArtifact(s, h, kew)] + [] == [WithArtifact(s, h, kew)];
  }

  lemma FileOk(w: World, l: Laws, s: Reg, h: Hash, kew: bytes, now: u64, s1: Reg) returns (writes: seq<Write>)
    requires Honest(w) && l.chain == RegistryChain(w) && Good(l, s1)
    requires s1 == WithArtifact(s, h, kew) && Step(l, s, PutBytes(h, kew), s1) && StateOf(Log(s1, h)) == Some(MlChecked)
    ensures var t := FileTrace(w, s, h, h, kew, [], now);
            Played(l, s, t.states, writes) && |writes| == 2 && t.result == Ok(Report(h, ExpertAttested)) &&
            Files(writes[0], h) && Logs(writes[1], h, ExpertAttested)
  {
    var x := PutBytes(h, kew);
    ForwardRoom(l, s1, h);
    var s2, e := AdvanceSafe(w, l, s1, h, ExpertAttested, EventKind(ExpertAttested), now);
    PlayedTwice(l, s, x, s1, LogEvent(h, e), s2);
    FileTraceIs(w, s, h, kew, now, s2, e);
    writes := [x, LogEvent(h, e)];
  }

  lemma FileTraceIs(w: World, s: Reg, h: Hash, kew: bytes, now: u64, s2: Reg, e: Event)
    requires Advance(w, WithArtifact(s, h, kew), h, ExpertAttested, EventKind(ExpertAttested), now) == Ok((s2, e))
    ensures FileTrace(w, s, h, h, kew, [], now) == Trace([WithArtifact(s, h, kew), s2], Reported(w, s2, h))
  {
    assert [WithArtifact(s, h, kew)] + [s2] == [WithArtifact(s, h, kew), s2];
  }

  /** When an attest call succeeds, in terms of its arguments and the state. */
  predicate AttestAccepts(kind: ArtifactKind, types: Claims, now: u64) {
    types != [] && now < U64_MAX && (PublicationApproval in types ==> forall t :: t in CoTypes(kind) ==> t in types)
  }

  lemma AttestGate(w: World, a: Artifact, types: Claims, now: u64)
    requires Honest(w) && types != []
    ensures var b := Artifacts.WithAttestations(a, ExpertAttestations(w, a.manifest, types, now)).0;
            LocalRejections(w, b, PERMISSIVE, now) == [] <==> AttestAccepts(a.manifest.kind, types, now)
  {
    var atts := ExpertAttestations(w, a.manifest, types, now);
    AttestedTypes(w, a.manifest, types, now);
    LocalGate(w, a.(attestations := atts), PERMISSIVE, now);
  }

  function Rewritten(w: World, a: Artifact, types: Claims, now: u64): bytes {
    Artifacts.WithAttestations(a, ExpertAttestations(w, a.manifest, types, now)).1
  }

  lemma AttestTraceIs(w: World, s: Reg, h: Hash, types: Claims, now: u64, a: Artifact) returns (rejections: seq<Rejection>)
    requires Honest(w) && types != [] && Standing(w, s, h) == Ok(MlChecked) && Stored(w, s, h) == Ok(a) && a.manifest.hash == h
    ensures AttestTrace(w, s, h, types, now) == FileTrace(w, s, h, h, Rewritten(w, a, types, now), rejections, now)
    ensures rejections == [] <==> AttestAccepts(a.manifest.kind, types, now)
  {
    var b := Artifacts.WithAttestations(a, ExpertAttestations(w, a.manifest, types, now)).0;
    rejections := LocalRejections(w, b, PERMISSIVE, now);
    AttestGate(w, a, types, now);
  }

  /** An attest call that gets as far as the gate re-writes the bytes whatever the gate says. */
  lemma AttestSafe(w: World, l: Laws, s: Reg, h: Hash, types: Claims, now: u64, a: Artifact) returns (writes: seq<Write>)
    requires Honest(w) && l.chain == RegistryChain(w) && Good(l, s)
    requires StateOf(Log(s, h)) == Some(MlChecked) ==>
               Stored(w, s, h) == Ok(a) && a.manifest.hash == h && l.filed(h, Rewritten(w, a, types, now))
    ensures var t := AttestTrace(w, s, h, types, now);
            Played(l, s, t.states, writes) &&
            (t.result.Ok? <==> StateOf(Log(s, h)) == Some(MlChecked) && AttestAccepts(a.manifest.kind, types, now)) &&
            if t.result.Ok? then
              |writes| == 2 && t.result == Ok(Report(h, ExpertAttested)) && Files(writes[0], h) && Logs(writes[1], h, ExpertAttested)
            else |writes| <= 1 && (writes != [] ==> Files(writes[0], h))
  {
    StandingIs(w, l, s, h);
    writes := [];
    if types != [] && StateOf(Log(s, h)) == Some(MlChecked) {
      var rejections := AttestTraceIs(w, s, h, types, now, a);
      writes := FileSafe(w, l, s, h, Rewritten(w, a, types, now), rejections, now);
    }
  }

  // ---- publishing ----

  lemma PublishTraceIs(w: World, s: Reg, h: Hash, env: Text, tag: Text, choice: PolicyChoice, now: u64, a: Artifact)
    requires Standing(w, s, h) == Ok(ExpertAttested) && Stored(w, s, h) == Ok(a)
    ensures var t := PublishTrace(w, s, h, env, tag, choice, now); var policy := ResolvePolicy(choice, a.manifest.kind);
            if policy.Ok? then t == GatedTrace(w, s, h, LocalRejections(w, a, policy.value, now), env, tag, now)
            else t.states == [] && t.result.Err?
  {
  }

  lemma GatedSafe(w: World, l: Laws, s: Reg, h: Hash, rejections: seq<Rejection>, env: Text, tag: Text, now: u64) returns (writes: seq<Write>)
    requires Honest(w) && l.chain == RegistryChain(w) && Good(l, s) && StateOf(Log(s, h)) == Some(ExpertAttested)
    ensures var t := GatedTrace(w, s, h, rejections, env, tag, now);
            Played(l, s, t.states, writes) && (t.result.Ok? <==> rejections == []) &&
            if t.result.Ok? then
              |writes| == 2 && t.result == Ok(Report(h, Published)) && Logs(writes[0], h, Published) && Points(writes[1], h)
            else t.states == []
  {
    writes := [];
    if rejections == [] {
      writes := PublishOk(w, l, s, h, env, tag, now);
    }
  }

  lemma PublishOk(w: World, l: Laws, s: Reg, h: Hash, env: Text, tag: Text, now: u64) returns (writes: seq<Write>)
    requires Honest(w) && l.chain == RegistryChain(w) && Good(l, s) && StateOf(Log(s, h)) == Some(ExpertAttested)
    ensures var t := PointTrace(w, s, h, env, tag, EventKind(Published), now);
            Played(l, s, t.states, writes) && t.result == Ok(Report(h, Published)) &&
            |writes| == 2 && Logs(writes[0], h, Published) && Points(writes[1], h)
  {
    ForwardRoom(l, s, h);
    writes := PointSafe(w, l, s, h, env, tag, EventKind(Published), now);
  }

  lemma PublishSafe(w: World, l: Laws, s: Reg, h: Hash, env: Text, tag: Text, choice: PolicyChoice, now: u64, a: Artifact)
    returns (writes: seq<Write>)
    requires Honest(w) && l.chain == RegistryChain(w) && Good(l, s)
    requires StateOf(Log(s, h)) == Some(ExpertAttested) ==> Stored(w, s, h) == Ok(a)
    ensures var t := PublishTrace(w, s, h, env, tag, choice, now); var policy := ResolvePolicy(choice, a.manifest.kind);
            Played(l, s, t.states, writes) &&
            (t.result.Ok? <==>
               StateOf(Log(s, h)) == Some(ExpertAttested) && policy.Ok? && LocalRejections(w, a, policy.value, now) == []) &&
            if t.result.Ok? then
              |writes| == 2 && t.result == Ok(Report(h, Published)) && Logs(writes[0], h, Published) && Points(writes[1], h)
            else t.states == []
  {
    StandingIs(w, l, s, h);
    writes := [];
    if StateOf(Log(s, h)) == Some(ExpertAttested) {
      PublishTraceIs(w, s, h, env, tag, choice, now, a);
      var policy := ResolvePolicy(choice, a.manifest.kind);
      if policy.Ok? {
        writes := GatedSafe(w, l, s, h, LocalRejections(w, a, policy.value, now), env, tag, now);
      }
    }
  }

  // ---- compiling ----

  lemma DraftStep(w: World, l: Laws, s: Reg, h: Hash, e: Event)
    requires l.chain == RegistryChain(w) && Good(l, s) && h in s.artifacts
    requires e.artifactHash == h && e.seqNo == 0 && e.priorState == None && e.newState == Draft && e.kind == EventKind(Draft) &&
             e.prevHash == None && l.chain.signed(e)
    ensures if Log(s, h) == [] then
              var t := Applied(s, LogEvent(h, e));
              WithEvent(s, h, e) == Ok(t) && Step(l, s, LogEvent(h, e), t) && Good(l, t) && Log(t, h) == [e]
            else WithEvent(s, h, e) == Err(EventExists(0))
  {
    if Log(s, h) == [] {
      assert [] + [e] == [e];
      SafeKeepsGood(l, s, LogEvent(h, e));
    } else {
      GoodLog(l, s, h);
      OpensInOrder(l.chain, h, Log(s, h), 0);
      NumbersInOrder(l.chain, Log(s, h));
      assert Log(s, h)[0].seqNo == e.seqNo && Log(s, h)[0].kind == e.kind;
    }
  }

  lemma VerifiedStep(w: World, l: Laws, s: Reg, h: Hash, draft: Event, gate: Preconditions, now: u64) returns (t: Reg, e: Event)
    requires Honest(w) && l.chain == RegistryChain(w) && Good(l, s) && Log(s, h) == [draft] && draft.newState == Draft
    requires gate.structuralClean && gate.compilerSignatureValid
    ensures VerifiedTrace(w, s, h, draft, gate, now) == Trace([t], Ok(Report(h, StructurallyVerified)))
    ensures Step(l, s, LogEvent(h, e), t) && e.newState == StructurallyVerified
    ensures NextEvent(w, draft, StructurallyVerified, EventKind(StructurallyVerified), COMPILER_KEY_ID, h, now) == Ok(e)
  {
    GoodLog(l, s, h);
    LastNumber(l.chain, h, [draft]);
    NextEventFacts(w, draft, StructurallyVerified, EventKind(StructurallyVerified), COMPILER_KEY_ID, h, now);
    e := NextEvent(w, draft, StructurallyVerified, EventKind(StructurallyVerified), COMPILER_KEY_ID, h, now).value;
    NextFollows(l.chain, h, [draft], e);
    t := Applied(s, LogEvent(h, e));
    EventStep(l, s, h, e, t);
    ReportedIs(w, l, t, h);
  }

  /** Compiling files bytes first; a second compile of an address gets no further than that. */
  lemma StoreSafe(w: World, l: Laws, s: Reg, h: Hash, kew: bytes, gate: Preconditions, now: u64) returns (writes: seq<Write>)
    requires Honest(w) && l.chain == RegistryChain(w) && Good(l, s) && l.filed(h, kew) && l.bare(kew)
    requires gate.structuralClean && gate.compilerSignatureValid
    ensures var t := StoreTrace(w, s, h, kew, gate, now);
            Played(l, s, t.states, writes) && writes != [] && Files(writes[0], h) &&
            if Log(s, h) == [] then
              |writes| == 3 && t.result == Ok(Report(h, StructurallyVerified)) && Logs(writes[1], h, Draft) &&
              Logs(writes[2], h, StructurallyVerified)
            else t == Fail([WithArtifact(s, h, kew)], EventExists(0))
  {
    if Log(s, h) == [] {
      writes := StoreFresh(w, l, s, h, kew, gate, now);
    } else {
      var s1 := WithArtifact(s, h, kew);
      ArtifactStep(l, s, h, kew);
      DraftFacts(w, h, now);
      DraftStep(w, l, s1, h, DraftEvent(w, h, now));
      PlayedOnce(l, s, PutBytes(h, kew), s1);
      assert [s1] + [] == [s1];
      writes := [PutBytes(h, kew)];
    }
  }

  lemma StoreTraceIs(
    w: World, s: Reg, h: Hash, kew: bytes, gate: Preconditions, now: u64, s2: Reg, s3: Reg, r: Result<Report, Registry.Error>)
    requires WithEvent(WithArtifact(s, h, kew), h, DraftEvent(w, h, now)) == Ok(s2)
    requires VerifiedTrace(w, s2, h, DraftEvent(w, h, now), gate, now) == Trace([s3], r)
    ensures StoreTrace(w, s, h, kew, gate, now) == Trace([WithArtifact(s, h, kew), s2, s3], r)
  {
    DraftTraceIs(w, WithArtifact(s, h, kew), h, DraftEvent(w, h, now), gate, now, s2, s3, r);
    assert [WithArtifact(s, h, kew)] + [s2, s3] == [WithArtifact(s, h, kew), s2, s3];
  }

  lemma DraftTraceIs(
    w: World, s: Reg, h: Hash, draft: Event, gate: Preconditions, now: u64, s2: Reg, s3: Reg, r: Result<Report, Registry.Error>)
    requires WithEvent(s, h, draft) == Ok(s2) && VerifiedTrace(w, s2, h, draft, gate, now) == Trace([s3], r)
    ensures DraftTrace(w, s, h, draft, gate, now) == Trace([s2, s3], r)
  {
    assert [s2] + [s3] == [s2, s3];
  }

  lemma StoreFresh(w: World, l: Laws, s: Reg, h: Hash, kew: bytes, gate: Preconditions, now: u64) returns (writes: seq<Write>)
    requires Honest(w) && l.chain == RegistryChain(w) && Good(l, s) && l.filed(h, kew) && l.bare(kew) && Log(s, h) == []
    requires gate.structuralClean && gate.compilerSignatureValid
    ensures var t := StoreTrace(w, s, h, kew, gate, now);
            Played(l, s, t.states, writes) && |writes| == 3 && t.result == Ok(Report(h, StructurallyVerified)) &&
            Files(writes[0], h) && Logs(writes[1], h, Draft) && Logs(writes[2], h, StructurallyVerified)
  {
    var s1 := WithArtifact(s, h, kew);
    ArtifactStep(l, s, h, kew);
    var draft := DraftEvent(w, h, now);
    DraftFacts(w, h, now);
    DraftStep(w, l, s1, h, draft);
    var s2 := Applied(s1, LogEvent(h, draft));
    var s3, e := VerifiedStep(w, l, s2, h, draft, gate, now);
    PlayedThrice(l, s, PutBytes(h, kew), s1, LogEvent(h, draft), s2, LogEvent(h, e), s3);
    StoreTraceIs(w, s, h, kew, gate, now, s2, s3, Ok(Report(h, StructurallyVerified)));
    writes := [PutBytes(h, kew), LogEvent(h, draft), LogEvent(h, e)];
  }
}
