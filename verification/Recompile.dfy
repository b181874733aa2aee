/** Content compiled again after it has a history: what it strips, and when admission can be had back. */
module Recompile {
  import opened Wrappers
  import opened Wire
  import opened Crypto
  import opened Records
  import opened Attestations
  import opened Events
  import opened Registry
  import opened Lifecycle
  import opened Runs
  import opened Reach
  import opened Retry
  import opened Admission
  import Artifacts

  /**
   Compiling content that has a history reports an error and leaves the log as it stands, but only after replacing the
   stored bytes by bare ones: right after, the artifact is refused whatever its log says.
   */
  lemma RecompileStripsAdmission(
    w: World, s: Reg, m: Manifest, payload: Payload, audit: AuditVersions, blocking: bool, now: u64, env: Text, later: u64)
    returns (h: Hash, kew: bytes)
    requires Honest(w) && Good(LawsOf(w), s) && CompileTrace(w, s, m, payload, audit, blocking, now).states != []
    ensures Compiled(w, m, payload, audit).Ok? && h == Compiled(w, m, payload, audit).value.0.manifest.hash
    ensures var t := CompileTrace(w, s, m, payload, audit, blocking, now); var after := WithArtifact(s, h, kew);
            t.states[0] == after && LawsOf(w).bare(after.artifacts[h]) &&
            (Log(s, h) != [] ==>
               t == Fail([after], EventExists(0)) && Log(after, h) == Log(s, h) && Refuses(w, after, h, env, later))
  {
    var gate;
    h, kew, gate := CompileReady(w, s, m, payload, audit, blocking, now);
    var writes := StoreSafe(w, LawsOf(w), s, h, kew, gate, now);
    ArtifactStep(LawsOf(w), s, h, kew);
    BareIsRefused(w, WithArtifact(s, h, kew), h, env, later);
  }

  predicate Refuses(w: World, s: Reg, h: Hash, env: Text, now: u64) {
    var d := Admit(w, s, h, env, now);
    d.Ok? && d.value.Refused?
  }

  lemma BareIsRefused(w: World, s: Reg, h: Hash, env: Text, now: u64)
    requires Honest(w) && Good(LawsOf(w), s) && h in s.artifacts && LawsOf(w).bare(s.artifacts[h])
    ensures Refuses(w, s, h, env, now)
  {
    var a := AdmitExactly(w, s, h, env, now);
    Artifacts.DecodeEncode(w.profile, a);
    CompleteMeetsBuiltIn(a);
  }

  // ---- over runs ----

  /** The log stands at expert_attested or beyond, where no command attests any more. */
  predicate PastAttesting(s: Reg, h: Hash) {
    StateOf(Log(s, h)).Some? && Rank(StateOf(Log(s, h)).value) >= Rank(ExpertAttested)
  }

  ghost predicate Stripped(l: Laws, s: Reg, h: Hash) {
    h in s.artifacts && l.bare(s.artifacts[h]) && PastAttesting(s, h)
  }

  lemma StepKeepsStripped(l: Laws, s: Reg, x: Write, t: Reg, h: Hash)
    requires Step(l, s, x, t) && Stripped(l, s, h)
    ensures Stripped(l, t, h)
  {
    if x.LogEvent? && x.h == h {
      assert Legal(h, StateOf(Log(s, h)), x.e);
      assert Log(t, h) == Log(s, h) + [x.e];
    } else {
      assert Log(t, h) == Log(s, h);
    }
  }

  lemma PlayedKeepsStripped(l: Laws, s: Reg, states: seq<Reg>, writes: seq<Write>, i: nat, h: Hash)
    requires Played(l, s, states, writes) && Stripped(l, s, h) && i <= |states|
    ensures Stripped(l, Before(s, states, i), h)
  {
    forall j | 0 <= j < |states| && Stripped(l, Before(s, states, j), h)
      ensures Stripped(l, states[j], h)
    {
      assert Step(l, Before(s, states, j), writes[j], states[j]);
      StepKeepsStripped(l, Before(s, states, j), writes[j], states[j], h);
    }
    AlongStates(s, states, (a: Reg, b: Reg) => Stripped(l, a, h) ==> Stripped(l, b, h), i);
  }

  lemma StoppedKeepsStripped(l: Laws, s: Reg, t: Trace, writes: seq<Write>, stop: Option<nat>, h: Hash)
    requires Played(l, s, t.states, writes) && Stripped(l, s, h)
    ensures Stripped(l, Stopped(s, t, stop), h)
  {
    PlayedKeepsStripped(l, s, t.states, writes, WritesMade(s, t, stop), h);
  }

  /** Bare bytes under a log past attesting stay bare, however the run goes on. */
  lemma {:induction false} RunKeepsStripped(w: World, s: Reg, attempts: seq<Attempt>, h: Hash)
    requires Honest(w) && Good(LawsOf(w), s) && Stripped(LawsOf(w), s, h)
    ensures Stripped(LawsOf(w), Run(w, s, attempts), h)
    decreases |attempts|
  {
    if attempts != [] {
      var x := attempts[0];
      var g, writes := CommandSafe(w, s, x.command);
      StoppedKeepsStripped(LawsOf(w), s, TraceOf(w, s, x.command), writes, x.stop, h);
      ExecKeepsGood(w, s, x);
      RunKeepsStripped(w, Exec(w, s, x), attempts[1..], h);
    }
  }

  /** Stripped past attesting, an artifact is refused in every continuation, at any time and in any environment. */
  lemma StrippedIsRefusedForGood(w: World, s: Reg, attempts: seq<Attempt>, h: Hash, env: Text, now: u64)
    requires Honest(w) && Good(LawsOf(w), s) && Stripped(LawsOf(w), s, h)
    ensures Refuses(w, Run(w, s, attempts), h, env, now)
  {
    RunIsGood(w, s, attempts);
    RunKeepsStripped(w, s, attempts, h);
    BareIsRefused(w, Run(w, s, attempts), h, env, now);
  }

  // ---- from the empty registry to a refusal ----

  /** The address a compile files its bytes at, when they can be compiled. */
  predicate CompilesTo(w: World, c: Command, h: Hash) {
    c.Compile? && !c.blocking &&
    var r := Compiled(w, c.manifest, c.payload, c.audit); r.Ok? && r.value.0.manifest.hash == h
  }

  lemma CompileOpens(w: World, s: Reg, c: Command, h: Hash)
    requires CompilesTo(w, c, h)
    ensures CompileTrace(w, s, c.manifest, c.payload, c.audit, false, c.now).states != []
  {
  }

  /** Compiling it again strips an artifact past attesting. */
  lemma RecompileStrips(w: World, s: Reg, c: Command, h: Hash)
    requires Honest(w) && Good(LawsOf(w), s) && CompilesTo(w, c, h) && PastAttesting(s, h)
    ensures var after := Exec(w, s, Attempt(c, None));
            TraceOf(w, s, c).result.Err? && Good(LawsOf(w), after) && Stripped(LawsOf(w), after, h) && Log(after, h) == Log(s, h)
  {
    ExecKeepsGood(w, s, Attempt(c, None));
    CompileOpens(w, s, c, h);
    var g, kew := RecompileStripsAdmission(w, s, c.manifest, c.payload, c.audit, false, c.now, LOCAL, 0);
    OneWriteThenError(s, WithArtifact(s, h, kew), EventExists(0));
  }

  lemma OneWriteThenError(s: Reg, after: Reg, e: Error)
    ensures Final(s, Fail([after], e)) == after
  {
  }

  lemma FreshIsUnchecked(w: World, c: Command, h: Hash)
    requires Honest(w) && CompilesTo(w, c, h)
    ensures var s := Exec(w, EMPTY, Attempt(c, None));
            Good(LawsOf(w), s) && StateOf(Log(s, h)) == Some(StructurallyVerified) && h !in s.consistency
  {
    EmptyIsGood(LawsOf(w));
    ExecKeepsGood(w, EMPTY, Attempt(c, None));
    CompiledIsUnchecked(w, c.manifest, c.payload, c.audit, c.now);
    assert c == Compile(c.manifest, c.payload, c.audit, false, c.now);
  }

  /** Attest every claim, then publish under the built-in policy, the key window open each time. */
  predicate Publishing(attest: Command, publish: Command, h: Hash) {
    && attest.Attest? && attest.h == h && attest.types == ALL_TYPES && attest.now < U64_MAX
    && publish.Publish? && publish.h == h && publish.policy.BuiltIn? && publish.now < U64_MAX
  }

  /** The registry a command run to its end leaves. */
  function Whole(w: World, s: Reg, c: Command): Reg {
    Exec(w, s, Attempt(c, None))
  }

  lemma VerifiedIsPublished(w: World, s: Reg, check: Command, attest: Command, publish: Command, h: Hash, later: u64)
    requires Honest(w) && Good(LawsOf(w), s) && check.MlCheck? && check.h == h && Publishing(attest, publish, h) && later < U64_MAX
    requires StateOf(Log(s, h)) == Some(StructurallyVerified) && h !in s.consistency
    ensures var t := Whole(w, Whole(w, Whole(w, s, check), attest), publish);
            Good(LawsOf(w), t) && StateOf(Log(t, h)) == Some(Published) && Admits(w, t, h, LOCAL, later)
  {
    CheckSucceeds(w, s, check);
    ExecKeepsGood(w, s, Attempt(check, None));
    CheckedIsPublished(w, Whole(w, s, check), attest, publish, h, later);
  }

  lemma CheckedIsPublished(w: World, s: Reg, attest: Command, publish: Command, h: Hash, later: u64)
    requires Honest(w) && Good(LawsOf(w), s) && Publishing(attest, publish, h) && later < U64_MAX
    requires StateOf(Log(s, h)) == Some(MlChecked)
    ensures var t := Whole(w, Whole(w, s, attest), publish);
            Good(LawsOf(w), t) && StateOf(Log(t, h)) == Some(Published) && Admits(w, t, h, LOCAL, later)
  {
    AttestSucceeds(w, s, attest);
    CompleteIsPublished(w, Whole(w, s, attest), publish, later);
  }

  lemma CompleteIsPublished(w: World, s: Reg, c: Command, later: u64)
    requires Honest(w) && Good(LawsOf(w), s) && c.Publish? && StateOf(Log(s, c.h)) == Some(ExpertAttested)
    requires Stored(w, s, c.h).Ok? && Complete(Stored(w, s, c.h).value) && c.policy.BuiltIn? && c.now < U64_MAX && later < U64_MAX
    ensures var t := Exec(w, s, Attempt(c, None));
            Good(LawsOf(w), t) && StateOf(Log(t, c.h)) == Some(Published) && Admits(w, t, c.h, LOCAL, later)
  {
    var t := Exec(w, s, Attempt(c, None));
    ExecKeepsGood(w, s, Attempt(c, None));
    PublishEnds(w, s, c, t);
    PublishedWhole(w, s, t, c.h, c.env, c.tag, c.now, later);
  }

  lemma PublishEnds(w: World, s: Reg, c: Command, t: Reg)
    requires c.Publish? && c.policy.BuiltIn? && t == Exec(w, s, Attempt(c, None))
    ensures t == Final(s, PublishTrace(w, s, c.h, c.env, c.tag, BuiltIn, c.now))
  {
  }

  lemma PublishedWhole(w: World, s: Reg, t: Reg, h: Hash, env: Text, tag: Text, now: u64, later: u64)
    requires Honest(w) && Good(LawsOf(w), s) && StateOf(Log(s, h)) == Some(ExpertAttested)
    requires Stored(w, s, h).Ok? && Complete(Stored(w, s, h).value) && now < U64_MAX && later < U64_MAX
    requires t == Final(s, PublishTrace(w, s, h, env, tag, BuiltIn, now)) && Good(LawsOf(w), t)
    ensures StateOf(Log(t, h)) == Some(Published) && Admits(w, t, h, LOCAL, later)
  {
    PublishAdmits(w, s, h, env, tag, now, later);
    AdmittedIsPublished(w, t, h, LOCAL, later);
  }

  lemma AdmittedIsPublished(w: World, s: Reg, h: Hash, env: Text, now: u64)
    requires Honest(w) && Good(LawsOf(w), s) && Admits(w, s, h, env, now)
    ensures StateOf(Log(s, h)) == Some(Published)
  {
    if StateOf(Log(s, h)) != Some(Published) {
      UnpublishedIsRefused(w, s, h, env, now);
    }
  }

  lemma RunWhole(w: World, s: Reg, b: Command, c: Command, d: Command, e: Command)
    ensures Run(w, s, [Attempt(b, None), Attempt(c, None), Attempt(d, None), Attempt(e, None)]) ==
            Whole(w, Whole(w, Whole(w, Whole(w, s, b), c), d), e)
  {
    var (x, y, z, u) := (Attempt(b, None), Attempt(c, None), Attempt(d, None), Attempt(e, None));
    assert [x, y, z, u] == [x] + [y, z, u] && [y, z, u] == [y] + [z, u];
    RunAfter(w, s, x, [y, z, u]);
    RunAfter(w, Whole(w, s, b), y, [z, u]);
    RunTwice(w, Whole(w, Whole(w, s, b), c), z, u);
  }

  /**
   From the empty registry, whatever compiles is admitted once checked, attested and published; compiling it once more
   fails, and from then on it is refused in every continuation.
   */
  lemma RecompileEndsAdmission(
    w: World, compile: Command, check: Command, attest: Command, publish: Command, s: Reg, h: Hash, open: u64,
    attempts: seq<Attempt>, env: Text, now: u64)
    requires Honest(w) && CompilesTo(w, compile, h) && check.MlCheck? && check.h == h && Publishing(attest, publish, h) && open < U64_MAX
    requires s == Run(w, EMPTY, [Attempt(compile, None), Attempt(check, None), Attempt(attest, None), Attempt(publish, None)])
    ensures Admits(w, s, h, LOCAL, open)
    ensures TraceOf(w, s, compile).result.Err? && Log(Whole(w, s, compile), h) == Log(s, h)
    ensures Refuses(w, Run(w, Whole(w, s, compile), attempts), h, env, now)
  {
    RunIsPublished(w, compile, check, attest, publish, s, h, open);
    PublishedIsPast(s, h);
    RecompiledIsRefused(w, s, compile, h, attempts, env, now);
  }

  lemma PublishedIsPast(s: Reg, h: Hash)
    requires StateOf(Log(s, h)) == Some(Published)
    ensures PastAttesting(s, h)
  {
  }

  lemma RunIsPublished(w: World, compile: Command, check: Command, attest: Command, publish: Command, s: Reg, h: Hash, open: u64)
    requires Honest(w) && CompilesTo(w, compile, h) && check.MlCheck? && check.h == h && Publishing(attest, publish, h) && open < U64_MAX
    requires s == Run(w, EMPTY, [Attempt(compile, None), Attempt(check, None), Attempt(attest, None), Attempt(publish, None)])
    ensures Good(LawsOf(w), s) && StateOf(Log(s, h)) == Some(Published) && Admits(w, s, h, LOCAL, open)
  {
    RunWhole(w, EMPTY, compile, check, attest, publish);
    CompiledIsPublished(w, compile, check, attest, publish, h, open);
  }

  lemma CompiledIsPublished(w: World, compile: Command, check: Command, attest: Command, publish: Command, h: Hash, open: u64)
    requires Honest(w) && CompilesTo(w, compile, h) && check.MlCheck? && check.h == h && Publishing(attest, publish, h) && open < U64_MAX
    ensures var s := Whole(w, Whole(w, Whole(w, Whole(w, EMPTY, compile), check), attest), publish);
            Good(LawsOf(w), s) && StateOf(Log(s, h)) == Some(Published) && Admits(w, s, h, LOCAL, open)
  {
    FreshIsUnchecked(w, compile, h);
    VerifiedIsPublished(w, Whole(w, EMPTY, compile), check, attest, publish, h, open);
  }

  lemma RunAfter(w: World, s: Reg, x: Attempt, attempts: seq<Attempt>)
    ensures Run(w, s, [x] + attempts) == Run(w, Exec(w, s, x), attempts)
  {
    assert ([x] + attempts)[1..] == attempts;
  }

  lemma RecompiledIsRefused(w: World, s: Reg, c: Command, h: Hash, attempts: seq<Attempt>, env: Text, now: u64)
    requires Honest(w) && Good(LawsOf(w), s) && CompilesTo(w, c, h) && PastAttesting(s, h)
    ensures var after := Exec(w, s, Attempt(c, None));
            TraceOf(w, s, c).result.Err? && Log(after, h) == Log(s, h) && Refuses(w, Run(w, after, attempts), h, env, now)
  {
    RecompileStrips(w, s, c, h);
    StrippedIsRefusedForGood(w, Exec(w, s, Attempt(c, None)), attempts, h, env, now);
  }

  // ---- getting admission back ----

  /** Some continuation of the run reaches such a registry. */
  ghost predicate Sometime(w: World, s: Reg, p: Reg -> bool) {
    exists attempts :: p(Run(w, s, attempts))
  }

  lemma SometimeNow(w: World, s: Reg, p: Reg -> bool)
    requires p(s)
    ensures Sometime(w, s, p)
  {
    assert p(Run(w, s, []));
  }

  lemma SometimeLater(w: World, s: Reg, x: Attempt, p: Reg -> bool)
    requires Sometime(w, Exec(w, s, x), p)
    ensures Sometime(w, s, p)
  {
    var attempts :| p(Run(w, Exec(w, s, x), attempts));
    RunAfter(w, s, x, attempts);
    assert p(Run(w, s, [x] + attempts));
  }

  ghost predicate AdmittedSomewhere(w: World, s: Reg, h: Hash) {
    exists env, now :: Admits(w, s, h, env, now)
  }

  ghost function Admitting(w: World, h: Hash): Reg -> bool {
    (s: Reg) => AdmittedSomewhere(w, s, h)
  }

  /** Some continuation admits the artifact, in some environment, at some time. */
  ghost predicate Restorable(w: World, s: Reg, h: Hash) {
    Sometime(w, s, Admitting(w, h))
  }

  lemma AttestSucceeds(w: World, s: Reg, c: Command)
    requires Honest(w) && Good(LawsOf(w), s) && c.Attest? && StateOf(Log(s, c.h)) == Some(MlChecked)
    requires c.types == ALL_TYPES && c.now < U64_MAX
    ensures var t := Exec(w, s, Attempt(c, None));
            Good(LawsOf(w), t) && StateOf(Log(t, c.h)) == Some(ExpertAttested) &&
            Stored(w, t, c.h).Ok? && Complete(Stored(w, t, c.h).value)
  {
    var h, writes := CommandSafe(w, s, c);
    ExecKeepsGood(w, s, Attempt(c, None));
    AllTypesAccepted(c.now);
    var a := AttestFiles(w, s, c.h, c.types, c.now);
    AttestEnds(LawsOf(w), s, TraceOf(w, s, c), writes, c.h);
    RewrittenIsComplete(w, s, c.h, c.now, a);
  }

  lemma AllTypesAccepted(now: u64)
    requires now < U64_MAX
    ensures forall kind :: AttestAccepts(kind, ALL_TYPES, now)
  {
  }

  lemma AttestFiles(w: World, s: Reg, h: Hash, types: Claims, now: u64) returns (a: Artifact)
    requires Honest(w) && Good(LawsOf(w), s) && StateOf(Log(s, h)) == Some(MlChecked)
    requires forall kind :: AttestAccepts(kind, types, now)
    ensures Stored(w, s, h) == Ok(a) && h in s.artifacts
    ensures var t := AttestTrace(w, s, h, types, now);
            t.result.Ok? && t.states != [] && t.states[0] == WithArtifact(s, h, Rewritten(w, a, types, now))
  {
    a := AttestReady(w, s, h, types, now);
    AttestAgain(w, LawsOf(w), s, h, types, now, a, now);
    var filed := AttestSucceeded(w, s, h, types, now);
  }

  lemma AttestEnds(l: Laws, s: Reg, t: Trace, writes: seq<Write>, h: Hash)
    requires Played(l, s, t.states, writes) && |writes| == 2 && Files(writes[0], h) && Logs(writes[1], h, ExpertAttested)
    ensures StateOf(Log(Final(s, t), h)) == Some(ExpertAttested) && Final(s, t).artifacts == t.states[0].artifacts
  {
    assert Step(l, Before(s, t.states, 0), writes[0], t.states[0]);
    assert Step(l, Before(s, t.states, 1), writes[1], t.states[1]);
  }

  lemma RewrittenIsComplete(w: World, s: Reg, h: Hash, now: u64, a: Artifact)
    requires Good(LawsOf(w), s) && h in s.artifacts && Stored(w, s, h) == Ok(a)
    ensures var r := Artifacts.Decode(w.profile, Rewritten(w, a, ALL_TYPES, now)); r.Ok? && Complete(r.value.0)
  {
    var filed := StoredIs(w, s, h);
    RewriteFiled(w, h, s.artifacts[h], a, ALL_TYPES, now);
    AttestedTypes(w, a.manifest, ALL_TYPES, now);
    Artifacts.DecodeEncode(w.profile, Artifacts.WithAttestations(a, ExpertAttestations(w, a.manifest, ALL_TYPES, now)).0);
  }

  lemma PublishSucceeds(w: World, s: Reg, c: Command)
    requires Honest(w) && Good(LawsOf(w), s) && c.Publish? && StateOf(Log(s, c.h)) == Some(ExpertAttested)
    requires Stored(w, s, c.h).Ok? && Complete(Stored(w, s, c.h).value) && c.policy.BuiltIn? && c.now < U64_MAX
    ensures AdmittedSomewhere(w, Exec(w, s, Attempt(c, None)), c.h)
  {
    CompleteIsPublished(w, s, c, c.now);
  }

  lemma PublishAdmits(w: World, s: Reg, h: Hash, env: Text, tag: Text, now: u64, later: u64)
    requires Honest(w) && Good(LawsOf(w), s) && StateOf(Log(s, h)) == Some(ExpertAttested)
    requires Stored(w, s, h).Ok? && Complete(Stored(w, s, h).value) && now < U64_MAX && later < U64_MAX
    ensures Admits(w, Final(s, PublishTrace(w, s, h, env, tag, BuiltIn, now)), h, LOCAL, later)
  {
    PublishSucceedsExactly(w, s, h, env, tag, now);
    var a := PublishedIsAdmitted(w, s, h, env, tag, now, later);
  }

  lemma AttestedIsRestorable(w: World, s: Reg, c: Command)
    requires Honest(w) && Good(LawsOf(w), s) && c.Publish? && StateOf(Log(s, c.h)) == Some(ExpertAttested)
    requires Stored(w, s, c.h).Ok? && Complete(Stored(w, s, c.h).value) && c.policy.BuiltIn? && c.now < U64_MAX
    ensures Restorable(w, s, c.h)
  {
    PublishSucceeds(w, s, c);
    SometimeNow(w, Exec(w, s, Attempt(c, None)), Admitting(w, c.h));
    SometimeLater(w, s, Attempt(c, None), Admitting(w, c.h));
  }

  lemma CheckedIsRestorable(w: World, s: Reg, h: Hash)
    requires Honest(w) && Good(LawsOf(w), s) && StateOf(Log(s, h)) == Some(MlChecked)
    ensures Restorable(w, s, h)
  {
    var c := Attest(h, ALL_TYPES, 0);
    AttestSucceeds(w, s, c);
    AttestedIsRestorable(w, Exec(w, s, Attempt(c, None)), Publish(h, [], [], BuiltIn, 0));
    SometimeLater(w, s, Attempt(c, None), Admitting(w, h));
  }

  lemma VerifiedIsRestorable(w: World, s: Reg, h: Hash)
    requires Honest(w) && Good(LawsOf(w), s) && StateOf(Log(s, h)) == Some(StructurallyVerified) && h !in s.consistency
    ensures Restorable(w, s, h)
  {
    var c := MlCheck(h, 0);
    CheckSucceeds(w, s, c);
    ExecKeepsGood(w, s, Attempt(c, None));
    CheckedIsRestorable(w, Exec(w, s, Attempt(c, None)), h);
    SometimeLater(w, s, Attempt(c, None), Admitting(w, h));
  }

  lemma CheckSucceeds(w: World, s: Reg, c: Command)
    requires Honest(w) && Good(LawsOf(w), s) && c.MlCheck?
    requires StateOf(Log(s, c.h)) == Some(StructurallyVerified) && c.h !in s.consistency
    ensures StateOf(Log(Exec(w, s, Attempt(c, None)), c.h)) == Some(MlChecked)
  {
    var writes := MlCheckSafe(w, LawsOf(w), s, c.h, c.now);
    CheckEnds(LawsOf(w), s, TraceOf(w, s, c), writes, c.h);
  }

  lemma CheckEnds(l: Laws, s: Reg, t: Trace, writes: seq<Write>, h: Hash)
    requires Played(l, s, t.states, writes) && |writes| == 2 && Blocks(writes[0], h) && Logs(writes[1], h, MlChecked)
    ensures StateOf(Log(Final(s, t), h)) == Some(MlChecked)
  {
    assert Step(l, Before(s, t.states, 0), writes[0], t.states[0]);
    assert Step(l, Before(s, t.states, 1), writes[1], t.states[1]);
  }

  lemma UnpublishedIsRefused(w: World, s: Reg, h: Hash, env: Text, now: u64)
    requires Honest(w) && Good(LawsOf(w), s) && StateOf(Log(s, h)) != Some(Published)
    ensures !Admits(w, s, h, env, now)
  {
    if h in s.artifacts {
      var a := AdmitExactly(w, s, h, env, now);
    }
  }

  lemma StrippedIsUnrestorable(w: World, s: Reg, h: Hash)
    requires Honest(w) && Good(LawsOf(w), s) && Stripped(LawsOf(w), s, h)
    ensures !Restorable(w, s, h)
  {
    forall attempts, env, now
      ensures !Admits(w, Run(w, s, attempts), h, env, now)
    {
      StrippedIsRefusedForGood(w, s, attempts, h, env, now);
    }
  }

  lemma TornIsUnrestorable(w: World, s: Reg, h: Hash)
    requires Honest(w) && Good(LawsOf(w), s) && Torn(s, h)
    ensures !Restorable(w, s, h)
  {
    forall attempts, env, now
      ensures !Admits(w, Run(w, s, attempts), h, env, now)
    {
      RunIsGood(w, s, attempts);
      TornIsFinal(w, s, attempts, h);
      UnpublishedIsRefused(w, Run(w, s, attempts), h, env, now);
    }
  }

  /**
   An artifact with a history whose bytes a recompile stripped can be admitted again, in some continuation, exactly when
   its log is not past attesting and it is not torn.
   */
  lemma RestorableExactly(w: World, s: Reg, h: Hash)
    requires Honest(w) && Good(LawsOf(w), s) && Log(s, h) != [] && h in s.artifacts && LawsOf(w).bare(s.artifacts[h])
    ensures Restorable(w, s, h) <==> !PastAttesting(s, h) && !Torn(s, h)
  {
    if PastAttesting(s, h) {
      StrippedIsUnrestorable(w, s, h);
    } else if Torn(s, h) {
      TornIsUnrestorable(w, s, h);
    } else {
      UntornIsRestorable(w, s, h);
    }
  }

  lemma UntornIsRestorable(w: World, s: Reg, h: Hash)
    requires Honest(w) && Good(LawsOf(w), s) && Log(s, h) != [] && !PastAttesting(s, h) && !Torn(s, h)
    ensures Restorable(w, s, h)
  {
    StandsBefore(s, h);
    if StateOf(Log(s, h)) == Some(MlChecked) {
      CheckedIsRestorable(w, s, h);
    } else {
      VerifiedIsRestorable(w, s, h);
    }
  }

  lemma StandsBefore(s: Reg, h: Hash)
    requires Log(s, h) != [] && !PastAttesting(s, h) && !Torn(s, h)
    ensures StateOf(Log(s, h)) == Some(MlChecked) || (StateOf(Log(s, h)) == Some(StructurallyVerified) && h !in s.consistency)
  {
  }
}
