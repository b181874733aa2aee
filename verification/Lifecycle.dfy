/**
 What every run of the commands keeps, even when a command stops between two of its writes.

 Each command is a sequence of single-store writes. `Safe` says which writes the commands ever make from a good
 registry; a safe write keeps the registry good; so every registry a run can reach is good.
 */
module Lifecycle {
  import opened Wrappers
  import opened Wire
  import opened Crypto
  import opened Records
  import opened Attestations
  import opened Events
  import opened Registry
  import Artifacts

  const U32_COUNT: nat := 0x1_0000_0000

  // ---- legal logs ----

  const EVERYTHING := Preconditions(true, true, true, true, true)

  /** An edge of the transition table, under some preconditions. */
  predicate Edge(from: LifecycleState, to: LifecycleState) {
    CanTransition(from, to, EVERYTHING)
  }

  lemma EdgeIffPermitted(from: LifecycleState, to: LifecycleState)
    ensures Edge(from, to) <==> exists pre :: CanTransition(from, to, pre)
  {
  }

  /** The first event drafts; each later one takes an edge, or moves a tag while Published. */
  predicate Legal(h: Hash, prior: Option<LifecycleState>, e: Event) {
    e.artifactHash == h && e.priorState == prior &&
    match prior
    case None => e.newState == Draft && e.kind == EventKind(Draft)
    case Some(from) =>
      (Edge(from, e.newState) && e.kind == EventKind(e.newState)) ||
      (from == Published && e.newState == Published && e.kind == TAG_MOVED)
  }

  ghost predicate LogOk(k: Chain, h: Hash, log: seq<Event>) {
    |log| <= U32_COUNT && ValidLog(k, log) && forall i | 0 <= i < |log| :: Legal(h, StateOf(log[..i]), log[i])
  }

  /** An event that keeps a good log good. */
  predicate Follows(k: Chain, h: Hash, log: seq<Event>, e: Event) {
    |log| < U32_COUNT && e.seqNo == |log| && k.signed(e) && Legal(h, StateOf(log), e) &&
    e.prevHash == if log == [] then None else Some(k.link(log[|log| - 1]))
  }

  lemma FollowsKeepsLog(k: Chain, h: Hash, log: seq<Event>, e: Event)
    requires LogOk(k, h, log) && Follows(k, h, log, e)
    ensures LogOk(k, h, log + [e])
    ensures !Occupied(log, e) && Insert(log, e) == log + [e]
  {
    var l := log + [e];
    forall i | 0 <= i < |l|
      ensures Fault(k, l, i).None? && Legal(h, StateOf(l[..i]), l[i])
    {
      if i < |log| {
        StillGood(k, h, log, e, i);
      } else {
        LastGood(k, h, log, e);
      }
    }
    NumbersInOrder(k, log);
    NextAtTheEnd(log, e);
  }

  lemma LastGood(k: Chain, h: Hash, log: seq<Event>, e: Event)
    requires Follows(k, h, log, e)
    ensures var l := log + [e]; Fault(k, l, |log|).None? && Legal(h, StateOf(l[..|log|]), l[|log|])
  {
    assert (log + [e])[..|log|] == log;
  }

  /** The next number is free, and the event goes to the end. */
  lemma NextAtTheEnd(log: seq<Event>, e: Event)
    requires e.seqNo == |log| && forall i | 0 <= i < |log| :: log[i].seqNo == i
    ensures !Occupied(log, e) && Insert(log, e) == log + [e]
  {
  }

  lemma StillGood(k: Chain, h: Hash, log: seq<Event>, e: Event, i: nat)
    requires i < |log| && Fault(k, log, i).None? && Legal(h, StateOf(log[..i]), log[i])
    ensures var l := log + [e]; Fault(k, l, i).None? && Legal(h, StateOf(l[..i]), l[i])
  {
    assert (log + [e])[..i] == log[..i];
  }

  lemma NumbersInOrder(k: Chain, log: seq<Event>)
    requires ValidLog(k, log) && |log| <= U32_COUNT
    ensures forall i | 0 <= i < |log| :: log[i].seqNo == i
  {
    forall i | 0 <= i < |log|
      ensures log[i].seqNo == i
    {
      assert Fault(k, log, i).None?;
    }
  }

  function Rank(s: LifecycleState): nat {
    match s
    case Draft => 0 case StructurallyVerified => 1 case MlChecked => 2 case ExpertAttested => 3 case Published => 4
    case Deprecated => 5 case Revoked => 6
  }

  ghost predicate Reached(log: seq<Event>, s: LifecycleState) {
    exists i :: 0 <= i < |log| && log[i].newState == s
  }

  lemma LegalStep(k: Chain, h: Hash, log: seq<Event>, i: nat)
    requires LogOk(k, h, log) && 0 < i < |log|
    ensures Legal(h, Some(log[i - 1].newState), log[i])
  {
    assert Legal(h, StateOf(log[..i]), log[i]);
  }

  lemma {:induction false} RanksGrow(k: Chain, h: Hash, log: seq<Event>, i: nat, j: nat)
    requires LogOk(k, h, log) && i <= j < |log|
    ensures Rank(log[i].newState) <= Rank(log[j].newState)
    decreases j
  {
    if i < j {
      RanksGrow(k, h, log, i, j - 1);
      LegalStep(k, h, log, j);
    }
  }

  /** A good log opens with the five forward states, once each and in order, as far as it goes. */
  lemma {:induction false} OpensInOrder(k: Chain, h: Hash, log: seq<Event>, i: nat)
    requires LogOk(k, h, log) && i < |log| && i < 5
    ensures Rank(log[i].newState) == i && log[i].kind == EventKind(log[i].newState)
  {
    if i == 0 {
      assert Legal(h, StateOf(log[..0]), log[0]);
    } else {
      OpensInOrder(k, h, log, i - 1);
      LegalStep(k, h, log, i);
    }
  }

  lemma StateBeforePublished(k: Chain, h: Hash, log: seq<Event>)
    requires LogOk(k, h, log) && log != [] && Rank(log[|log| - 1].newState) < 4
    ensures |log| == Rank(log[|log| - 1].newState) + 1
  {
    if |log| >= 5 {
      OpensInOrder(k, h, log, 4);
      RanksGrow(k, h, log, 4, |log| - 1);
    } else {
      OpensInOrder(k, h, log, |log| - 1);
    }
  }

  /** States are reached in order: whatever a log has reached, it has been through everything before. */
  lemma ReachedBelow(k: Chain, h: Hash, log: seq<Event>, s: LifecycleState)
    requires LogOk(k, h, log) && log != [] && Rank(s) <= 4
    ensures Reached(log, s) <==> Rank(s) <= Rank(log[|log| - 1].newState)
  {
    var last := |log| - 1;
    if Reached(log, s) {
      var i :| 0 <= i < |log| && log[i].newState == s;
      RanksGrow(k, h, log, i, last);
    }
    if Rank(s) <= Rank(log[last].newState) {
      if |log| < 5 {
        OpensInOrder(k, h, log, last);
      }
      OpensInOrder(k, h, log, Rank(s));
      assert log[Rank(s)].newState == s;
    }
  }

  /** A Published log: draft, structurally_verified, ml_checked, expert_attested, published, then tag moves only. */
  lemma PublishedShape(k: Chain, h: Hash, log: seq<Event>)
    requires LogOk(k, h, log) && StateOf(log) == Some(Published)
    ensures |log| >= 5
    ensures forall i | 0 <= i < |log| ::
              if i < 5 then Rank(log[i].newState) == i && log[i].kind == EventKind(log[i].newState)
              else log[i].newState == Published && log[i].kind == TAG_MOVED
  {
    var last := |log| - 1;
    if |log| < 5 {
      OpensInOrder(k, h, log, last);
    }
    forall i | 0 <= i < |log|
      ensures if i < 5 then Rank(log[i].newState) == i && log[i].kind == EventKind(log[i].newState)
              else log[i].newState == Published && log[i].kind == TAG_MOVED
    {
      if i < 5 {
        OpensInOrder(k, h, log, i);
      } else {
        OpensInOrder(k, h, log, 4);
        RanksGrow(k, h, log, 4, i - 1);
        RanksGrow(k, h, log, i, last);
        RanksGrow(k, h, log, i - 1, last);
        LegalStep(k, h, log, i);
      }
    }
  }

  // ---- good registries ----

  /**
   What goodness rests on, as values: the chain checks, which bytes may be filed at an address, which carry no
   attestation, and which carry every type the built-in policy of their kind requires.
   */
  datatype Laws = Laws(chain: Chain, filed: (Hash, bytes) -> bool, bare: bytes -> bool, complete: bytes -> bool)

  ghost predicate GoodLogs(l: Laws, s: Reg) {
    forall h :: h in s.logs ==> s.logs[h] != [] && LogOk(l.chain, h, s.logs[h]) && h in s.artifacts
  }

  ghost predicate GoodArtifacts(l: Laws, s: Reg) {
    forall h :: h in s.artifacts ==> l.filed(h, s.artifacts[h])
  }

  /** A checked artifact has its block; a block belongs to a structurally verified one. */
  ghost predicate GoodConsistency(s: Reg) {
    (forall h :: h in s.logs && Reached(s.logs[h], MlChecked) ==> h in s.consistency) &&
    (forall h :: h in s.consistency ==> Reached(Log(s, h), StructurallyVerified))
  }

  /** A tag targets an artifact that was published; a revocation record belongs to a revoked one. */
  ghost predicate GoodReferences(s: Reg) {
    (forall t :: t in s.tags ==> Reached(Log(s, s.tags[t].target), Published)) &&
    (forall h :: h in s.revocations ==> StateOf(Log(s, h)) == Some(Revoked))
  }

  /** Without policy overrides: what was ever published is stored fully attested, or stripped by a recompile. */
  ghost predicate GoodPublications(l: Laws, s: Reg) {
    forall h :: h in s.artifacts && Reached(Log(s, h), Published) ==> l.bare(s.artifacts[h]) || l.complete(s.artifacts[h])
  }

  ghost predicate Good(l: Laws, s: Reg) {
    GoodLogs(l, s) && GoodArtifacts(l, s) && GoodConsistency(s) && GoodReferences(s)
  }

  // ---- safe writes ----

  datatype Write =
    | PutBytes(h: Hash, kew: bytes)
    | LogEvent(h: Hash, e: Event)
    | MovePointer(env: Text, tag: Text, p: Pointer)
    | PutBlock(h: Hash, block: ConsistencyBlock)
    | PutRecord(h: Hash, record: RevocationRecord)

  function Applied(s: Reg, x: Write): Reg {
    match x
    case PutBytes(h, kew) => WithArtifact(s, h, kew)
    case LogEvent(h, e) => s.(logs := s.logs[h := Log(s, h) + [e]])
    case MovePointer(env, tag, p) => WithPointer(s, env, tag, p)
    case PutBlock(h, block) => s.(consistency := s.consistency[h := block])
    case PutRecord(h, record) => s.(revocations := s.revocations[h := record])
  }

  ghost predicate Safe(l: Laws, s: Reg, x: Write) {
    match x
    case PutBytes(h, kew) => l.filed(h, kew) && (l.bare(kew) || StateOf(Log(s, h)) == Some(MlChecked))
    case LogEvent(h, e) =>
      Follows(l.chain, h, Log(s, h), e) && h in s.artifacts && (e.newState == MlChecked ==> h in s.consistency)
    case MovePointer(env, tag, p) => Reached(Log(s, p.target), Published)
    case PutBlock(h, _) => h !in s.consistency && StateOf(Log(s, h)) == Some(StructurallyVerified)
    case PutRecord(h, _) => h !in s.revocations && StateOf(Log(s, h)) == Some(Revoked)
  }

  /** The write that publishes, when it does. */
  ghost predicate Publishes(s: Reg, x: Write) {
    x.LogEvent? && x.e.newState == Published && StateOf(Log(s, x.h)) != Some(Published)
  }

  lemma ReachedGrows(log: seq<Event>, e: Event, s: LifecycleState)
    ensures Reached(log + [e], s) <==> Reached(log, s) || e.newState == s
  {
    var l := log + [e];
    if Reached(log, s) {
      var i :| 0 <= i < |log| && log[i].newState == s;
      assert l[i].newState == s;
    }
    assert l[|log|] == e;
  }

  lemma RevokedHasNoNext(k: Chain, h: Hash, log: seq<Event>, e: Event)
    requires StateOf(log) == Some(Revoked)
    ensures !Follows(k, h, log, e)
  {
  }

  /** A safe write keeps the registry good. */
  lemma SafeKeepsGood(l: Laws, s: Reg, x: Write)
    requires Good(l, s) && Safe(l, s, x)
    ensures Good(l, Applied(s, x))
  {
    if x.LogEvent? {
      EventKeepsLogs(l, s, x.h, x.e);
      EventKeepsRest(l, s, x.h, x.e);
    } else if x.PutBytes? {
      ArtifactKeepsGood(l, s, x);
    } else if x.PutBlock? {
      BlockKeepsGood(l, s, x);
    } else if x.MovePointer? {
      PointerKeepsGood(l, s, x);
    } else {
      RevocationKeepsGood(l, s, x.h, x.record);
    }
  }

  lemma SameLogs(l: Laws, s: Reg, t: Reg)
    requires GoodLogs(l, s) && t.logs == s.logs && s.artifacts.Keys <= t.artifacts.Keys
    ensures GoodLogs(l, t)
  {
  }

  lemma SameConsistency(s: Reg, t: Reg)
    requires GoodConsistency(s) && t.logs == s.logs && t.consistency == s.consistency
    ensures GoodConsistency(t)
  {
  }

  lemma SameReferences(s: Reg, t: Reg)
    requires GoodReferences(s) && t.logs == s.logs && t.tags == s.tags && t.revocations == s.revocations
    ensures GoodReferences(t)
  {
  }

  lemma ArtifactKeepsGood(l: Laws, s: Reg, x: Write)
    requires Good(l, s) && x.PutBytes? && l.filed(x.h, x.kew)
    ensures Good(l, Applied(s, x))
  {
    var t := Applied(s, x);
    SameLogs(l, s, t);
    SameConsistency(s, t);
    SameReferences(s, t);
  }

  lemma PointerKeepsGood(l: Laws, s: Reg, x: Write)
    requires Good(l, s) && x.MovePointer? && Reached(Log(s, x.p.target), Published)
    ensures Good(l, Applied(s, x))
  {
    var t := Applied(s, x);
    SameLogs(l, s, t);
    SameConsistency(s, t);
    assert GoodReferences(t) by {
      forall tag | tag in t.tags
        ensures Reached(Log(t, t.tags[tag].target), Published)
      {
        assert Log(t, t.tags[tag].target) == Log(s, t.tags[tag].target);
      }
    }
  }

  lemma SameArtifacts(l: Laws, s: Reg, t: Reg)
    requires GoodArtifacts(l, s) && t.artifacts == s.artifacts
    ensures GoodArtifacts(l, t)
  {
  }

  lemma RevocationKeepsGood(l: Laws, s: Reg, h: Hash, record: RevocationRecord)
    requires Good(l, s) && StateOf(Log(s, h)) == Some(Revoked)
    ensures Good(l, s.(revocations := s.revocations[h := record]))
  {
    var t := s.(revocations := s.revocations[h := record]);
    SameLogs(l, s, t);
    SameArtifacts(l, s, t);
    SameConsistency(s, t);
    RecordKeepsReferences(s, h, record);
  }

  lemma RecordKeepsReferences(s: Reg, h: Hash, record: RevocationRecord)
    requires GoodReferences(s) && StateOf(Log(s, h)) == Some(Revoked)
    ensures GoodReferences(s.(revocations := s.revocations[h := record]))
  {
    var t := s.(revocations := s.revocations[h := record]);
    forall g
      ensures Log(t, g) == Log(s, g)
    {
    }
  }

  lemma EventKeepsLogs(l: Laws, s: Reg, h: Hash, e: Event)
    requires Good(l, s) && Safe(l, s, LogEvent(h, e))
    ensures GoodLogs(l, Applied(s, LogEvent(h, e)))
  {
    if h !in s.logs {
      assert LogOk(l.chain, h, []);
    }
    FollowsKeepsLog(l.chain, h, Log(s, h), e);
  }

  lemma EventKeepsRest(l: Laws, s: Reg, h: Hash, e: Event)
    requires Good(l, s) && Safe(l, s, LogEvent(h, e))
    ensures var t := Applied(s, LogEvent(h, e)); GoodConsistency(t) && GoodReferences(t)
  {
    var t := Applied(s, LogEvent(h, e));
    forall g, q | Reached(Log(s, g), q)
      ensures Reached(Log(t, g), q)
    {
      if g == h {
        ReachedGrows(Log(s, h), e, q);
      }
    }
    ReachedGrows(Log(s, h), e, MlChecked);
    if StateOf(Log(s, h)) == Some(Revoked) {
      RevokedHasNoNext(l.chain, h, Log(s, h), e);
    }
  }

  lemma BlockKeepsGood(l: Laws, s: Reg, x: Write)
    requires Good(l, s) && Safe(l, s, x) && x.PutBlock?
    ensures Good(l, Applied(s, x))
  {
    var log := Log(s, x.h);
    assert log[|log| - 1].newState == StructurallyVerified;
  }

  /** So does what the registry holds of published artifacts, when only complete sets are published. */
  lemma SafeKeepsPublications(l: Laws, s: Reg, x: Write)
    requires Good(l, s) && GoodPublications(l, s) && Safe(l, s, x)
    requires Publishes(s, x) ==> l.complete(s.artifacts[x.h])
    ensures GoodPublications(l, Applied(s, x))
  {
    if x.LogEvent? {
      EventKeepsPublications(l, s, x);
    } else if x.PutBytes? {
      ArtifactKeepsPublications(l, s, x);
    } else {
      SamePublications(l, s, Applied(s, x));
    }
  }

  lemma SamePublications(l: Laws, s: Reg, t: Reg)
    requires GoodPublications(l, s) && t.logs == s.logs && t.artifacts == s.artifacts
    ensures GoodPublications(l, t)
  {
    forall h | h in t.artifacts && Reached(Log(t, h), Published)
      ensures l.bare(t.artifacts[h]) || l.complete(t.artifacts[h])
    {
      assert Reached(Log(s, h), Published);
    }
  }

  lemma EventKeepsPublications(l: Laws, s: Reg, x: Write)
    requires GoodPublications(l, s) && x.LogEvent? && x.h in s.artifacts
    requires Publishes(s, x) ==> l.complete(s.artifacts[x.h])
    ensures GoodPublications(l, Applied(s, x))
  {
    var t := Applied(s, x);
    forall h | h in t.artifacts && Reached(Log(t, h), Published)
      ensures l.bare(t.artifacts[h]) || l.complete(t.artifacts[h])
    {
      if x.h == h {
        ReachedGrows(Log(s, h), x.e, Published);
        ReachedNow(Log(s, h));
      } else {
        assert Reached(Log(s, h), Published);
      }
    }
  }

  lemma ReachedNow(log: seq<Event>)
    ensures StateOf(log).Some? ==> Reached(log, StateOf(log).value)
  {
    if log != [] {
      assert log[|log| - 1].newState == StateOf(log).value;
    }
  }

  lemma ArtifactKeepsPublications(l: Laws, s: Reg, x: Write)
    requires GoodLogs(l, s) && GoodPublications(l, s) && x.PutBytes?
    requires l.bare(x.kew) || StateOf(Log(s, x.h)) == Some(MlChecked)
    ensures GoodPublications(l, Applied(s, x))
  {
    var t := Applied(s, x);
    forall h | h in t.artifacts && Reached(Log(t, h), Published)
      ensures l.bare(t.artifacts[h]) || l.complete(t.artifacts[h])
    {
      assert Log(t, h) == Log(s, h);
      if x.h == h && !l.bare(x.kew) {
        CheckedIsUnpublished(l, s, h);
        assert false;
      }
    }
  }

  lemma CheckedIsUnpublished(l: Laws, s: Reg, h: Hash)
    requires GoodLogs(l, s) && StateOf(Log(s, h)) == Some(MlChecked)
    ensures !Reached(Log(s, h), Published)
  {
    ReachedBelow(l.chain, h, Log(s, h), Published);
  }

  // ---- runs of writes ----

  function Before(s: Reg, states: seq<Reg>, i: nat): Reg
    requires i <= |states|
  {
    if i == 0 then s else states[i - 1]
  }

  ghost predicate Step(l: Laws, s: Reg, x: Write, t: Reg) {
    Safe(l, s, x) && t == Applied(s, x)
  }

  /** The registries a command passes through, as safe writes. */
  ghost predicate Played(l: Laws, s: Reg, states: seq<Reg>, writes: seq<Write>) {
    |states| == |writes| && forall i | 0 <= i < |states| :: Step(l, Before(s, states, i), writes[i], states[i])
  }

  lemma PlayedOnce(l: Laws, s: Reg, x: Write, t: Reg)
    requires Step(l, s, x, t)
    ensures Played(l, s, [t], [x])
  {
  }

  lemma PlayedTwice(l: Laws, s: Reg, x: Write, t: Reg, y: Write, u: Reg)
    requires Step(l, s, x, t) && Step(l, t, y, u)
    ensures Played(l, s, [t, u], [x, y])
  {
  }

  lemma PlayedThrice(l: Laws, s: Reg, x: Write, t: Reg, y: Write, u: Reg, z: Write, v: Reg)
    requires Step(l, s, x, t) && Step(l, t, y, u) && Step(l, u, z, v)
    ensures Played(l, s, [t, u, v], [x, y, z])
  {
  }

  /** What holds at the start of a run of safe writes holds after each of them. */
  lemma {:induction false} PlayedKeepsGood(l: Laws, s: Reg, states: seq<Reg>, writes: seq<Write>, i: nat)
    requires Good(l, s) && Played(l, s, states, writes) && i <= |states|
    ensures Good(l, Before(s, states, i))
  {
    if i > 0 {
      PlayedKeepsGood(l, s, states, writes, i - 1);
      assert Step(l, Before(s, states, i - 1), writes[i - 1], states[i - 1]);
      SafeKeepsGood(l, Before(s, states, i - 1), writes[i - 1]);
    }
  }
}
