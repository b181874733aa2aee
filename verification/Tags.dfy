/** Which tag moves, when, and what resolving tags says right after. */
module Tags {
  import opened Wrappers
  import opened Wire
  import opened Crypto
  import opened Records
  import opened Events
  import opened Registry
  import opened Lifecycle
  import opened Runs
  import opened Reach
  import opened Outcomes
  import Resolve

  predicate Pointing(c: Command) {
    c.Publish? || c.Rollback?
  }

  /** No write among these moves a tag. */
  predicate Unpointed(writes: seq<Write>, i: nat)
    requires i <= |writes|
  {
    forall j | 0 <= j < i :: !writes[j].MovePointer?
  }

  lemma StepKeepsTags(l: Laws, s: Reg, x: Write, t: Reg)
    requires Step(l, s, x, t) && !x.MovePointer?
    ensures t.tags == s.tags
  {
  }

  lemma UnpointedKeepsTags(l: Laws, s: Reg, states: seq<Reg>, writes: seq<Write>, i: nat)
    requires Played(l, s, states, writes) && i <= |states| <= 3 && Unpointed(writes, i)
    ensures Before(s, states, i).tags == s.tags
  {
    if i > 0 {
      OneStepKeepsTags(l, s, states, writes, 0);
    }
    if i > 1 {
      OneStepKeepsTags(l, s, states, writes, 1);
    }
    if i > 2 {
      OneStepKeepsTags(l, s, states, writes, 2);
    }
  }

  lemma OneStepKeepsTags(l: Laws, s: Reg, states: seq<Reg>, writes: seq<Write>, i: nat)
    requires Played(l, s, states, writes) && i < |states| && !writes[i].MovePointer?
    ensures states[i].tags == Before(s, states, i).tags
  {
    StepAt(l, s, states, writes, i);
    StepKeepsTags(l, Before(s, states, i), writes[i], states[i]);
  }

  lemma StepAt(l: Laws, s: Reg, states: seq<Reg>, writes: seq<Write>, i: nat)
    requires Played(l, s, states, writes) && i < |states|
    ensures Step(l, Before(s, states, i), writes[i], states[i])
  {
  }

  lemma ShapedUnpointed(c: Command, ok: bool, h: Hash, writes: seq<Write>, i: nat)
    requires Shaped(c, ok, h, writes) && i <= |writes| && (ok && Pointing(c) ==> i < 2)
    ensures Unpointed(writes, i) && |writes| <= 3
  {
  }

  /** A publish or a rollback that succeeds and gets to its second write. */
  predicate Moves(w: World, s: Reg, x: Attempt) {
    Pointing(x.command) && TraceOf(w, s, x.command).result.Ok? && (x.stop.None? || x.stop.value >= 2)
  }

  /** A tag moves by a publish or a rollback that got to its second write, and by nothing else. */
  lemma TagsMoveExactly(w: World, s: Reg, x: Attempt)
    requires Honest(w) && Good(LawsOf(w), s)
    ensures var (c, t) := (x.command, Exec(w, s, x));
            if Moves(w, s, x) then
              |Log(s, c.h)| < U32_COUNT &&
              t.tags == s.tags[(c.env, c.tag) := Pointer(c.h, Ascii(if c.Publish? then "published" else "tag_moved"), |Log(s, c.h)|)]
            else t.tags == s.tags
  {
    if Moves(w, s, x) {
      var h, writes := CommandSafe(w, s, x.command);
      PointedTwice(s, TraceOf(w, s, x.command), x.stop);
      PointingLeaves(w, s, x.command);
    } else {
      TagsStay(w, s, x);
    }
  }

  lemma TagsStay(w: World, s: Reg, x: Attempt)
    requires Honest(w) && Good(LawsOf(w), s) && !Moves(w, s, x)
    ensures Exec(w, s, x).tags == s.tags
  {
    var h, writes := CommandSafe(w, s, x.command);
    StoppedTagsStay(LawsOf(w), s, x.command, TraceOf(w, s, x.command), x.stop, h, writes);
  }

  lemma StoppedTagsStay(l: Laws, s: Reg, c: Command, t: Trace, stop: Option<nat>, h: Hash, writes: seq<Write>)
    requires Played(l, s, t.states, writes) && Shaped(c, t.result.Ok?, h, writes)
    requires Pointing(c) && t.result.Ok? ==> stop.Some? && stop.value < 2
    ensures Stopped(s, t, stop).tags == s.tags
  {
    var n := WritesMade(s, t, stop);
    ShapedUnpointed(c, t.result.Ok?, h, writes, n);
    UnpointedKeepsTags(l, s, t.states, writes, n);
  }

  lemma PointedTwice(s: Reg, t: Trace, stop: Option<nat>)
    requires |t.states| == 2 && (stop.None? || stop.value >= 2)
    ensures Stopped(s, t, stop) == Final(s, t)
  {
  }

  lemma PointingLeaves(w: World, s: Reg, c: Command)
    requires Honest(w) && Good(LawsOf(w), s) && Pointing(c) && TraceOf(w, s, c).result.Ok?
    ensures |Log(s, c.h)| < U32_COUNT
    ensures Final(s, TraceOf(w, s, c)).tags ==
            s.tags[(c.env, c.tag) := Pointer(c.h, Ascii(if c.Publish? then "published" else "tag_moved"), |Log(s, c.h)|)]
  {
    if c.Publish? {
      var e := PublishLeaves(w, s, c);
    } else {
      var e := RollbackLeaves(w, s, c);
    }
  }

  /** Right after a publish or a rollback its tag resolves to its artifact, Published by that very event. */
  lemma PointedTagResolves(w: World, s: Reg, c: Command, t: Reg, listing: seq<Hash>)
    requires Honest(w) && Good(LawsOf(w), s) && Pointing(c) && TraceOf(w, s, c).result.Ok?
    requires t == Exec(w, s, Attempt(c, None)) && Resolve.Lists(t, listing)
    ensures var r := Resolve.ResolveIn(w, t, listing, Resolve.ByTag(c.env, c.tag));
            r.Ok? && r.value.hash == c.h && r.value.state == Published &&
            r.value.eventKind == Ascii(if c.Publish? then "published" else "tag_moved")
  {
    ExecKeepsGood(w, s, Attempt(c, None));
    var e := PointedLast(w, s, c);
    StandingResolves(w, t, listing, c.env, c.tag, c.h, e);
  }

  lemma StandingResolves(w: World, t: Reg, listing: seq<Hash>, env: Text, tag: Text, h: Hash, e: Event)
    requires Honest(w) && Good(LawsOf(w), t) && Resolve.Lists(t, listing) && PointsAt(t, env, tag, h, e)
    ensures var r := Resolve.ResolveIn(w, t, listing, Resolve.ByTag(env, tag));
            r.Ok? && r.value.hash == h && r.value.state == e.newState && r.value.eventKind == e.kind
  {
    StandingTagResolves(w, t, listing, env, tag, Log(t, h));
  }

  /** The tag points at the artifact, whose last event is this one. */
  predicate PointsAt(t: Reg, env: Text, tag: Text, h: Hash, e: Event) {
    (env, tag) in t.tags && t.tags[(env, tag)].target == h && Log(t, h) != [] && Log(t, h)[|Log(t, h)| - 1] == e
  }

  lemma StandingTagResolves(w: World, t: Reg, listing: seq<Hash>, env: Text, tag: Text, log: seq<Event>)
    requires Honest(w) && Good(LawsOf(w), t) && Resolve.Lists(t, listing) && (env, tag) in t.tags
    requires log == Log(t, t.tags[(env, tag)].target) && log != []
    ensures var r := Resolve.ResolveIn(w, t, listing, Resolve.ByTag(env, tag));
            r.Ok? && r.value.hash == t.tags[(env, tag)].target && r.value.state == log[|log| - 1].newState &&
            r.value.eventKind == log[|log| - 1].kind
  {
    Resolve.TagIsTarget(w, t, listing, env, tag);
    Resolve.DescribeFound(w, t, listing, t.tags[(env, tag)].target);
  }

  lemma PointedLast(w: World, s: Reg, c: Command) returns (e: Event)
    requires Honest(w) && Good(LawsOf(w), s) && Pointing(c) && TraceOf(w, s, c).result.Ok?
    ensures PointsAt(Exec(w, s, Attempt(c, None)), c.env, c.tag, c.h, e) && e.newState == Published
    ensures e.kind == Ascii(if c.Publish? then "published" else "tag_moved")
  {
    if c.Publish? {
      e := PublishLeaves(w, s, c);
      LoggedAndPointed(s, c.h, e, c.env, c.tag, Pointer(c.h, Ascii("published"), e.seqNo));
    } else {
      e := RollbackLeaves(w, s, c);
      LoggedAndPointed(s, c.h, e, c.env, c.tag, Pointer(c.h, Ascii("tag_moved"), e.seqNo));
    }
  }

  lemma LoggedAndPointed(s: Reg, h: Hash, e: Event, env: Text, tag: Text, p: Pointer)
    ensures var t := s.(logs := s.logs[h := Log(s, h) + [e]], tags := s.tags[(env, tag) := p]); var log := Log(t, h);
            log != [] && log[|log| - 1] == e && (env, tag) in t.tags && t.tags[(env, tag)] == p
  {
  }

  /** And every other tag resolves as to its own target, as before. */
  lemma OtherTagsStay(w: World, s: Reg, x: Attempt, t: Reg, listing: seq<Hash>, env: Text, tag: Text)
    requires Honest(w) && Good(LawsOf(w), s) && t == Exec(w, s, x) && Resolve.Lists(t, listing)
    requires Pointing(x.command) ==> (env, tag) != (x.command.env, x.command.tag)
    ensures var r := Resolve.ResolveIn(w, t, listing, Resolve.ByTag(env, tag));
            if (env, tag) in s.tags then r.Ok? && r.value.hash == s.tags[(env, tag)].target else r == Err(NotFound)
  {
    ExecKeepsGood(w, s, x);
    TagsMoveExactly(w, s, x);
    Resolve.TagResolvesExactly(w, t, listing, env, tag);
  }
}
