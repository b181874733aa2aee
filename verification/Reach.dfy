/**
 The registry over whole runs: any sequence of commands, each run to its end or stopped between two of its writes.
 */
module Reach {
  import opened Wrappers
  import opened Wire
  import opened Crypto
  import opened Records
  import opened Attestations
  import opened Events
  import opened Registry
  import opened Lifecycle
  import opened Runs
  import Artifacts

  /** A command, and how many of its writes happen before it is stopped, when it is. */
  datatype Attempt = Attempt(command: Command, stop: Option<nat>)

  function Stopped(s: Reg, t: Trace, stop: Option<nat>): Reg {
    if stop.None? then Final(s, t) else After(s, t, stop.value)
  }

  function Exec(w: World, s: Reg, x: Attempt): Reg {
    Stopped(s, TraceOf(w, s, x.command), x.stop)
  }

  function Run(w: World, s: Reg, attempts: seq<Attempt>): Reg
    decreases |attempts|
  {
    if attempts == [] then s else Run(w, Exec(w, s, attempts[0]), attempts[1..])
  }

  // ---- one command ----

  /** What a command writes on success, and all it may have written on failure: bytes, never a log, tag or sidecar. */
  ghost predicate Shaped(c: Command, ok: bool, h: Hash, writes: seq<Write>) {
    if !ok then writes == [] || (|writes| == 1 && Files(writes[0], h))
    else
      match c
      case Compile(_, _, _, _, _) =>
        |writes| == 3 && Files(writes[0], h) && Logs(writes[1], h, Draft) && Logs(writes[2], h, StructurallyVerified)
      case MlCheck(_, _) => |writes| == 2 && Blocks(writes[0], h) && Logs(writes[1], h, MlChecked)
      case Attest(_, _, _) => |writes| == 2 && Files(writes[0], h) && Logs(writes[1], h, ExpertAttested)
      case Publish(_, _, _, _, _) => |writes| == 2 && Logs(writes[0], h, Published) && Points(writes[1], h)
      case Deprecate(_, _) => |writes| == 1 && Logs(writes[0], h, Deprecated)
      case Revoke(_, _, _, _, _) => |writes| == 2 && Logs(writes[0], h, Revoked) && Notes(writes[1], h)
      case Rollback(_, _, _, _) => |writes| == 2 && Logs(writes[0], h, Published) && Points(writes[1], h)
  }

  /** From a good registry every command makes only safe writes, of its own shape, about one artifact. */
  lemma CommandSafe(w: World, s: Reg, c: Command) returns (h: Hash, writes: seq<Write>)
    requires Honest(w) && Good(LawsOf(w), s)
    ensures var t := TraceOf(w, s, c);
            Played(LawsOf(w), s, t.states, writes) && Shaped(c, t.result.Ok?, h, writes) &&
            (t.result.Ok? ==> t.result.value.hash == h) && (!c.Compile? ==> h == c.h)
  {
    var l := LawsOf(w);
    match c
    case Compile(m, payload, audit, blocking, now) => h, writes := CompileSafe(w, s, m, payload, audit, blocking, now);
    case MlCheck(g, now) => h := g; writes := MlCheckSafe(w, l, s, g, now);
    case Attest(g, types, now) => h := g; writes := AttestCommandSafe(w, s, g, types, now);
    case Publish(g, env, tag, policy, now) => h := g; writes := PublishCommandSafe(w, s, g, env, tag, policy, now);
    case Deprecate(g, now) => h := g; writes := DeprecateSafe(w, l, s, g, now);
    case Revoke(g, recorded, class_, reason, now) => h := g; writes := RevokeSafe(w, l, s, g, recorded, class_, reason, now);
    case Rollback(env, tag, g, now) => h := g; writes := RollbackSafe(w, l, s, env, tag, g, now);
  }

  lemma CompileSafe(w: World, s: Reg, m: Manifest, payload: Payload, audit: AuditVersions, blocking: bool, now: u64)
    returns (h: Hash, writes: seq<Write>)
    requires Honest(w) && Good(LawsOf(w), s)
    ensures var t := CompileTrace(w, s, m, payload, audit, blocking, now);
            Played(LawsOf(w), s, t.states, writes) &&
            (if t.result.Ok? then
               Log(s, h) == [] && |writes| == 3 && Files(writes[0], h) && Logs(writes[1], h, Draft) &&
               Logs(writes[2], h, StructurallyVerified) && t.result.value.hash == h
             else writes == [] || (|writes| == 1 && Files(writes[0], h)))
  {
    h, writes := ZERO_HASH, [];
    if CompileTrace(w, s, m, payload, audit, blocking, now).states != [] {
      var kew, gate;
      h, kew, gate := CompileReady(w, s, m, payload, audit, blocking, now);
      writes := StoreSafe(w, LawsOf(w), s, h, kew, gate, now);
    } else {
      CompileIdle(w, s, m, payload, audit, blocking, now);
    }
  }

  lemma CompileReady(w: World, s: Reg, m: Manifest, payload: Payload, audit: AuditVersions, blocking: bool, now: u64)
    returns (h: Hash, kew: bytes, gate: Preconditions)
    requires Honest(w) && CompileTrace(w, s, m, payload, audit, blocking, now).states != []
    ensures Compiled(w, m, payload, audit).Ok? && h == Compiled(w, m, payload, audit).value.0.manifest.hash
    ensures CompileTrace(w, s, m, payload, audit, blocking, now) == StoreTrace(w, s, h, kew, gate, now)
    ensures LawsOf(w).filed(h, kew) && LawsOf(w).bare(kew) && gate.structuralClean && gate.compilerSignatureValid
  {
    CompileTraceIs(w, s, m, payload, audit, blocking, now);
    CompileFiled(w, m, payload, audit);
    var (a, bytes) := Compiled(w, m, payload, audit).value;
    h, kew, gate := a.manifest.hash, bytes, CompilerGate(w, bytes);
  }

  lemma CompileTraceIs(w: World, s: Reg, m: Manifest, payload: Payload, audit: AuditVersions, blocking: bool, now: u64)
    requires CompileTrace(w, s, m, payload, audit, blocking, now).states != []
    ensures Compiled(w, m, payload, audit).Ok?
    ensures var (a, kew) := Compiled(w, m, payload, audit).value;
            CompileTrace(w, s, m, payload, audit, blocking, now) ==
            StoreTrace(w, s, a.manifest.hash, kew, CompilerGate(w, kew), now)
  {
  }

  lemma CompileIdle(w: World, s: Reg, m: Manifest, payload: Payload, audit: AuditVersions, blocking: bool, now: u64)
    ensures var t := CompileTrace(w, s, m, payload, audit, blocking, now); t.states == [] ==> t.result.Err?
  {
  }

  lemma AttestCommandSafe(w: World, s: Reg, h: Hash, types: Claims, now: u64) returns (writes: seq<Write>)
    requires Honest(w) && Good(LawsOf(w), s)
    ensures var t := AttestTrace(w, s, h, types, now);
            Played(LawsOf(w), s, t.states, writes) && Shaped(Attest(h, types, now), t.result.Ok?, h, writes) &&
            (t.result.Ok? ==> t.result.value.hash == h)
  {
    writes := [];
    if StateOf(Log(s, h)) == Some(MlChecked) {
      var a := AttestReady(w, s, h, types, now);
      writes := AttestSafe(w, LawsOf(w), s, h, types, now, a);
    } else {
      StandingIs(w, LawsOf(w), s, h);
      AttestIdle(w, s, h, types, now);
    }
  }

  lemma AttestReady(w: World, s: Reg, h: Hash, types: Claims, now: u64) returns (a: Artifact)
    requires Honest(w) && Good(LawsOf(w), s) && StateOf(Log(s, h)) == Some(MlChecked)
    ensures Stored(w, s, h) == Ok(a) && a.manifest.hash == h && LawsOf(w).filed(h, Rewritten(w, a, types, now))
  {
    GoodLog(LawsOf(w), s, h);
    a := StoredIs(w, s, h);
    RewriteFiled(w, h, s.artifacts[h], a, types, now);
  }

  lemma AttestIdle(w: World, s: Reg, h: Hash, types: Claims, now: u64)
    requires Standing(w, s, h) != Ok(MlChecked)
    ensures var t := AttestTrace(w, s, h, types, now); t.states == [] && t.result.Err?
  {
  }

  lemma PublishCommandSafe(w: World, s: Reg, h: Hash, env: Text, tag: Text, choice: PolicyChoice, now: u64) returns (writes: seq<Write>)
    requires Honest(w) && Good(LawsOf(w), s)
    ensures var t := PublishTrace(w, s, h, env, tag, choice, now);
            Played(LawsOf(w), s, t.states, writes) && Shaped(Publish(h, env, tag, choice, now), t.result.Ok?, h, writes) &&
            (t.result.Ok? ==> t.result.value.hash == h)
  {
    writes := [];
    if StateOf(Log(s, h)) == Some(ExpertAttested) {
      GoodLog(LawsOf(w), s, h);
      var a := StoredIs(w, s, h);
      writes := PublishSafe(w, LawsOf(w), s, h, env, tag, choice, now, a);
    } else {
      StandingIs(w, LawsOf(w), s, h);
    }
  }

  // ---- every reachable registry ----

  lemma EmptyIsGood(l: Laws)
    ensures Good(l, EMPTY)
  {
  }

  /** Stopped anywhere, a command leaves a good registry good. */
  lemma ExecKeepsGood(w: World, s: Reg, x: Attempt)
    requires Honest(w) && Good(LawsOf(w), s)
    ensures Good(LawsOf(w), Exec(w, s, x))
  {
    var h, writes := CommandSafe(w, s, x.command);
    StoppedKeepsGood(LawsOf(w), s, TraceOf(w, s, x.command), writes, x.stop);
  }

  lemma StoppedKeepsGood(l: Laws, s: Reg, t: Trace, writes: seq<Write>, stop: Option<nat>)
    requires Good(l, s) && Played(l, s, t.states, writes)
    ensures Good(l, Stopped(s, t, stop))
  {
    PlayedKeepsGood(l, s, t.states, writes, WritesMade(s, t, stop));
  }

  /** How many of a trace's writes are made. */
  function WritesMade(s: Reg, t: Trace, stop: Option<nat>): (n: nat)
    ensures n <= |t.states| && Stopped(s, t, stop) == Before(s, t.states, n)
  {
    if stop.None? || stop.value > |t.states| then |t.states| else stop.value
  }

  lemma {:induction false} RunIsGood(w: World, s: Reg, attempts: seq<Attempt>)
    requires Honest(w) && Good(LawsOf(w), s)
    ensures Good(LawsOf(w), Run(w, s, attempts))
    decreases |attempts|
  {
    if attempts != [] {
      ExecKeepsGood(w, s, attempts[0]);
      RunIsGood(w, Exec(w, s, attempts[0]), attempts[1..]);
    }
  }

  /**
   In every registry any run reaches: each log walks clean and each of its events is about its artifact and legal
   after the one before; what is filed at an address decodes and rehashes to it; a tag targets an artifact whose
   log has published; a revocation record belongs to a revoked one.
   */
  lemma EveryRegistryIsSound(w: World, attempts: seq<Attempt>)
    requires Honest(w)
    ensures var s := Run(w, EMPTY, attempts); var k := RegistryChain(w);
            (forall h :: CurrentState(k, Log(s, h)) == Ok(StateOf(Log(s, h)))) &&
            (forall h, i :: 0 <= i < |Log(s, h)| ==> Legal(h, StateOf(Log(s, h)[..i]), Log(s, h)[i])) &&
            (forall h :: h in s.artifacts ==> Artifacts.VerifyHash(w.suite, w.profile, s.artifacts[h]) == Ok(h)) &&
            (forall t :: t in s.tags ==> Reached(Log(s, s.tags[t].target), Published)) &&
            (forall h :: h in s.revocations ==> StateOf(Log(s, h)) == Some(Revoked))
  {
    var s := Run(w, EMPTY, attempts);
    EmptyIsGood(LawsOf(w));
    RunIsGood(w, EMPTY, attempts);
    forall h: Hash
      ensures LogOk(RegistryChain(w), h, Log(s, h))
    {
      if Log(s, h) != [] {
        GoodLog(LawsOf(w), s, h);
      }
    }
    forall h | h in s.artifacts
      ensures Artifacts.VerifyHash(w.suite, w.profile, s.artifacts[h]) == Ok(h)
    {
      FiledVerifies(w, s, h);
    }
  }

  /** A Published artifact's history: the five forward steps once each in order, then tag moves only. */
  lemma PublishedHistory(w: World, attempts: seq<Attempt>, h: Hash)
    requires Honest(w) && StateOf(Log(Run(w, EMPTY, attempts), h)) == Some(Published)
    ensures var log := Log(Run(w, EMPTY, attempts), h);
            |log| >= 5 && forall i | 0 <= i < |log| ::
              if i < 5 then Rank(log[i].newState) == i && log[i].kind == EventKind(log[i].newState)
              else log[i].newState == Published && log[i].kind == TAG_MOVED
  {
    EmptyIsGood(LawsOf(w));
    RunIsGood(w, EMPTY, attempts);
    GoodLog(LawsOf(w), Run(w, EMPTY, attempts), h);
    PublishedShape(RegistryChain(w), h, Log(Run(w, EMPTY, attempts), h));
  }

  lemma FiledVerifies(w: World, s: Reg, h: Hash)
    requires Honest(w) && Good(LawsOf(w), s) && h in s.artifacts
    ensures Artifacts.VerifyHash(w.suite, w.profile, s.artifacts[h]) == Ok(h)
  {
    var a := StoredIs(w, s, h);
    Artifacts.SealedVerifies(w.suite, w.profile, w.compilerKey, a);
  }

  // ---- logs only grow ----

  /** History is kept at an address, and a revoked history kept as it is. */
  predicate Grows(a: Reg, b: Reg, h: Hash) {
    Log(a, h) <= Log(b, h) && (StateOf(Log(a, h)) == Some(Revoked) ==> Log(b, h) == Log(a, h))
  }

  lemma StepGrowsLog(l: Laws, s: Reg, x: Write, t: Reg, h: Hash)
    requires Step(l, s, x, t)
    ensures Grows(s, t, h)
  {
    if x.LogEvent? && x.h == h && StateOf(Log(s, h)) == Some(Revoked) {
      RevokedHasNoNext(l.chain, h, Log(s, h), x.e);
    }
  }

  lemma GrowsTransitive(a: Reg, b: Reg, c: Reg, h: Hash)
    requires Grows(a, b, h) && Grows(b, c, h)
    ensures Grows(a, c, h)
  {
  }

  lemma PlayedGrowsLog(l: Laws, s: Reg, states: seq<Reg>, writes: seq<Write>, i: nat, h: Hash)
    requires Played(l, s, states, writes) && i <= |states|
    ensures Grows(s, Before(s, states, i), h)
  {
    forall j | 0 <= j < |states|
      ensures Grows(Before(s, states, j), states[j], h)
    {
      assert Step(l, Before(s, states, j), writes[j], states[j]);
      StepGrowsLog(l, Before(s, states, j), writes[j], states[j], h);
    }
    forall a: Reg, b: Reg, c: Reg | Grows(a, b, h) && Grows(b, c, h)
      ensures Grows(a, c, h)
    {
      GrowsTransitive(a, b, c, h);
    }
    AlongStates(s, states, (a: Reg, b: Reg) => Grows(a, b, h), i);
  }

  /** A relation that is reflexive, transitive and holds at each step holds from the start to every state. */
  lemma {:induction false} AlongStates(s: Reg, states: seq<Reg>, r: (Reg, Reg) -> bool, i: nat)
    requires i <= |states| && r(s, s)
    requires forall j | 0 <= j < |states| :: r(Before(s, states, j), states[j])
    requires forall a, b, c :: r(a, b) && r(b, c) ==> r(a, c)
    ensures r(s, Before(s, states, i))
  {
    if i > 0 {
      AlongStates(s, states, r, i - 1);
    }
  }

  /** No command, stopped anywhere, rewrites history; and none adds to a revoked artifact's. */
  lemma LogsOnlyGrow(w: World, s: Reg, x: Attempt, h: Hash)
    requires Honest(w) && Good(LawsOf(w), s)
    ensures Log(s, h) <= Log(Exec(w, s, x), h)
    ensures StateOf(Log(s, h)) == Some(Revoked) ==> Log(Exec(w, s, x), h) == Log(s, h)
  {
    var g, writes := CommandSafe(w, s, x.command);
    StoppedGrowsLog(LawsOf(w), s, TraceOf(w, s, x.command), writes, x.stop, h);
  }

  lemma StoppedGrowsLog(l: Laws, s: Reg, t: Trace, writes: seq<Write>, stop: Option<nat>, h: Hash)
    requires Played(l, s, t.states, writes)
    ensures Grows(s, Stopped(s, t, stop), h)
  {
    PlayedGrowsLog(l, s, t.states, writes, WritesMade(s, t, stop), h);
  }

  /** Once revoked, a log is final, however the run goes on. */
  lemma {:induction false} RevokedIsFinal(w: World, s: Reg, attempts: seq<Attempt>, h: Hash)
    requires Honest(w) && Good(LawsOf(w), s) && StateOf(Log(s, h)) == Some(Revoked)
    ensures Log(Run(w, s, attempts), h) == Log(s, h)
    decreases |attempts|
  {
    if attempts != [] {
      ExecKeepsGood(w, s, attempts[0]);
      LogsOnlyGrow(w, s, attempts[0], h);
      RevokedIsFinal(w, Exec(w, s, attempts[0]), attempts[1..], h);
    }
  }

  // ---- failure ----

  /** A command that reports an error has left every log, tag and sidecar as it was; at most it re-filed bytes. */
  lemma FailureWritesOnlyBytes(w: World, s: Reg, c: Command)
    requires Honest(w) && Good(LawsOf(w), s) && TraceOf(w, s, c).result.Err?
    ensures var t := Exec(w, s, Attempt(c, None)); t == s.(artifacts := t.artifacts)
  {
    var h, writes := CommandSafe(w, s, c);
    BytesOnly(LawsOf(w), s, TraceOf(w, s, c), writes, h);
  }

  lemma BytesOnly(l: Laws, s: Reg, t: Trace, writes: seq<Write>, h: Hash)
    requires Played(l, s, t.states, writes) && (writes == [] || (|writes| == 1 && Files(writes[0], h)))
    ensures Final(s, t) == s.(artifacts := Final(s, t).artifacts)
  {
    if writes != [] {
      assert Step(l, Before(s, t.states, 0), writes[0], t.states[0]);
    }
  }

  // ---- what a torn command leaves behind ----

  /**
   A draft whose compile stopped before its second event, or a verified artifact whose check stopped between its
   block and its event.
   */
  predicate Torn(s: Reg, h: Hash) {
    StateOf(Log(s, h)) == Some(Draft) || (StateOf(Log(s, h)) == Some(StructurallyVerified) && h in s.consistency)
  }

  /** No event of this artifact among these. */
  predicate Unlogged(writes: seq<Write>, h: Hash) {
    forall i | 0 <= i < |writes| :: !(writes[i].LogEvent? && writes[i].h == h)
  }

  lemma TornTakesNoEvent(l: Laws, s: Reg, c: Command, ok: bool, h: Hash, states: seq<Reg>, writes: seq<Write>)
    requires Played(l, s, states, writes) && Shaped(c, ok, h, writes) && Torn(s, h)
    ensures Unlogged(writes, h)
  {
    if ok {
      assert Step(l, s, writes[0], states[0]);
      if writes[0].PutBytes? {
        assert Step(l, states[0], writes[1], states[1]);
        TornNext(l.chain, h, Log(s, h), writes[1].e);
      } else if writes[0].LogEvent? {
        TornNext(l.chain, h, Log(s, h), writes[0].e);
      }
    }
  }

  lemma TornNext(k: Chain, h: Hash, log: seq<Event>, e: Event)
    requires Follows(k, h, log, e)
    ensures StateOf(log) == Some(Draft) ==> e.newState == StructurallyVerified
    ensures StateOf(log) == Some(StructurallyVerified) ==> e.newState == MlChecked
  {
  }

  /** The same log at an address, and no block lost there. */
  predicate SameAt(a: Reg, b: Reg, h: Hash) {
    Log(b, h) == Log(a, h) && (h in a.consistency ==> h in b.consistency)
  }

  lemma NoEventNoChange(l: Laws, s: Reg, states: seq<Reg>, writes: seq<Write>, i: nat, h: Hash)
    requires Played(l, s, states, writes) && Unlogged(writes, h) && i <= |states|
    ensures SameAt(s, Before(s, states, i), h)
  {
    forall j | 0 <= j < |states|
      ensures SameAt(Before(s, states, j), states[j], h)
    {
      assert Step(l, Before(s, states, j), writes[j], states[j]);
      OtherWriteKeepsLog(l, Before(s, states, j), writes[j], states[j], h);
    }
    forall a: Reg, b: Reg, c: Reg | SameAt(a, b, h) && SameAt(b, c, h)
      ensures SameAt(a, c, h)
    {
      SameTransitive(a, b, c, h);
    }
    AlongStates(s, states, (a: Reg, b: Reg) => SameAt(a, b, h), i);
  }

  lemma SameTransitive(a: Reg, b: Reg, c: Reg, h: Hash)
    requires SameAt(a, b, h) && SameAt(b, c, h)
    ensures SameAt(a, c, h)
  {
  }

  lemma OtherWriteKeepsLog(l: Laws, s: Reg, x: Write, t: Reg, h: Hash)
    requires Step(l, s, x, t) && !(x.LogEvent? && x.h == h)
    ensures SameAt(s, t, h)
  {
  }

  lemma ShapedIsLocal(c: Command, ok: bool, h: Hash, writes: seq<Write>, g: Hash)
    requires Shaped(c, ok, h, writes) && g != h
    ensures Unlogged(writes, g)
  {
  }

  lemma TornStays(l: Laws, s: Reg, c: Command, h: Hash, t: Trace, writes: seq<Write>, stop: Option<nat>, g: Hash)
    requires Played(l, s, t.states, writes) && Shaped(c, t.result.Ok?, h, writes) && Torn(s, g)
    ensures Torn(Stopped(s, t, stop), g) && Log(Stopped(s, t, stop), g) == Log(s, g)
  {
    if g == h {
      TornTakesNoEvent(l, s, c, t.result.Ok?, h, t.states, writes);
    } else {
      ShapedIsLocal(c, t.result.Ok?, h, writes, g);
    }
    NoEventNoChange(l, s, t.states, writes, WritesMade(s, t, stop), g);
  }

  /**
   Nothing repairs a torn compile or a torn check: every later compile, check or transition of that artifact is
   refused, so its log never grows again.
   */
  lemma {:induction false} TornIsFinal(w: World, s: Reg, attempts: seq<Attempt>, h: Hash)
    requires Honest(w) && Good(LawsOf(w), s) && Torn(s, h)
    ensures Log(Run(w, s, attempts), h) == Log(s, h)
    decreases |attempts|
  {
    if attempts != [] {
      var x := attempts[0];
      var g, writes := CommandSafe(w, s, x.command);
      TornStays(LawsOf(w), s, x.command, g, TraceOf(w, s, x.command), writes, x.stop, h);
      ExecKeepsGood(w, s, x);
      TornIsFinal(w, Exec(w, s, x), attempts[1..], h);
    }
  }

  // ---- uninterrupted runs ----

  /** A block exactly where the check was passed, a record exactly where revoked. */
  ghost predicate Tidy(s: Reg) {
    (forall h :: h in s.consistency <==> Reached(Log(s, h), MlChecked)) &&
    (forall h :: h in s.revocations <==> StateOf(Log(s, h)) == Some(Revoked))
  }

  /** A write that touches no sidecar and no state a sidecar belongs to. */
  predicate Quiet(x: Write) {
    x.PutBytes? || x.MovePointer? || (x.LogEvent? && x.e.newState != MlChecked && x.e.newState != Revoked)
  }

  lemma QuietKeepsTidy(l: Laws, s: Reg, x: Write, t: Reg)
    requires Tidy(s) && Step(l, s, x, t) && Quiet(x)
    ensures Tidy(t)
  {
    forall h: Hash
      ensures Reached(Log(t, h), MlChecked) <==> Reached(Log(s, h), MlChecked)
      ensures StateOf(Log(t, h)) == Some(Revoked) <==> StateOf(Log(s, h)) == Some(Revoked)
    {
      if x.LogEvent? && x.h == h {
        ReachedGrows(Log(s, h), x.e, MlChecked);
        if StateOf(Log(s, h)) == Some(Revoked) {
          RevokedHasNoNext(l.chain, h, Log(s, h), x.e);
        }
      }
    }
  }

  /** A sidecar and the event it goes with, in either order. */
  lemma PairKeepsTidy(l: Laws, s: Reg, x: Write, t: Reg, y: Write, u: Reg, h: Hash)
    requires Tidy(s) && Step(l, s, x, t) && Step(l, t, y, u)
    requires (Blocks(x, h) && Logs(y, h, MlChecked)) || (Logs(x, h, Revoked) && Notes(y, h))
    ensures Tidy(u)
  {
    if Blocks(x, h) {
      BlockPairKeepsTidy(l, s, x, t, y, u, h);
    } else {
      RecordPairKeepsTidy(l, s, x, t, y, u, h);
    }
  }

  lemma BlockPairKeepsTidy(l: Laws, s: Reg, x: Write, t: Reg, y: Write, u: Reg, h: Hash)
    requires Tidy(s) && Step(l, s, x, t) && Step(l, t, y, u) && Blocks(x, h) && Logs(y, h, MlChecked)
    ensures Tidy(u)
  {
    assert Log(u, h) == Log(s, h) + [y.e];
    ReachedGrows(Log(s, h), y.e, MlChecked);
    forall g | g != h
      ensures Log(u, g) == Log(s, g)
    {
    }
  }

  lemma RecordPairKeepsTidy(l: Laws, s: Reg, x: Write, t: Reg, y: Write, u: Reg, h: Hash)
    requires Tidy(s) && Step(l, s, x, t) && Step(l, t, y, u) && Logs(x, h, Revoked) && Notes(y, h)
    ensures Tidy(u)
  {
    assert Log(u, h) == Log(s, h) + [x.e];
    ReachedGrows(Log(s, h), x.e, MlChecked);
    forall g | g != h
      ensures Log(u, g) == Log(s, g)
    {
    }
  }

  lemma TraceKeepsTidy(l: Laws, s: Reg, c: Command, h: Hash, t: Trace, writes: seq<Write>)
    requires Played(l, s, t.states, writes) && Shaped(c, t.result.Ok?, h, writes) && Tidy(s)
    ensures Tidy(Final(s, t))
  {
    if writes != [] {
      var a := t.states[0];
      assert Step(l, Before(s, t.states, 0), writes[0], a);
      if |writes| == 1 {
        QuietKeepsTidy(l, s, writes[0], a);
      } else {
        var b := t.states[1];
        assert Step(l, Before(s, t.states, 1), writes[1], b);
        if c.MlCheck? || c.Revoke? {
          PairKeepsTidy(l, s, writes[0], a, writes[1], b, h);
        } else {
          QuietKeepsTidy(l, s, writes[0], a);
          QuietKeepsTidy(l, a, writes[1], b);
          if |writes| == 3 {
            assert Step(l, Before(s, t.states, 2), writes[2], t.states[2]);
            QuietKeepsTidy(l, b, writes[2], t.states[2]);
          }
        }
      }
    }
  }

  predicate Uninterrupted(attempts: seq<Attempt>) {
    forall x :: x in attempts ==> x.stop.None?
  }

  /** When commands run to their end, sidecars exist exactly where their states have been reached. */
  lemma {:induction false} UninterruptedRunsAreTidy(w: World, s: Reg, attempts: seq<Attempt>)
    requires Honest(w) && Good(LawsOf(w), s) && Tidy(s) && Uninterrupted(attempts)
    ensures Tidy(Run(w, s, attempts))
    decreases |attempts|
  {
    if attempts != [] {
      var x := attempts[0];
      var h, writes := CommandSafe(w, s, x.command);
      TraceKeepsTidy(LawsOf(w), s, x.command, h, TraceOf(w, s, x.command), writes);
      ExecKeepsGood(w, s, x);
      UninterruptedRunsAreTidy(w, Exec(w, s, x), attempts[1..]);
    }
  }

  lemma SidecarsExactlyWhereReached(w: World, attempts: seq<Attempt>, h: Hash)
    requires Honest(w) && Uninterrupted(attempts)
    ensures var s := Run(w, EMPTY, attempts);
            (h in s.consistency <==> Reached(Log(s, h), MlChecked)) &&
            (h in s.revocations <==> StateOf(Log(s, h)) == Some(Revoked))
  {
    EmptyIsGood(LawsOf(w));
    UninterruptedRunsAreTidy(w, EMPTY, attempts);
  }
}
