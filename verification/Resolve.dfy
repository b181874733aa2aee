/**
 Resolution: from a content hash, a tag or a regime at a date to one artifact and the state it was found in.
 Nothing is written.
 */
module Resolve {
  import opened Wrappers
  import opened Wire
  import opened Crypto
  import opened Calendar
  import opened Records
  import opened Events
  import opened Registry
  import opened Lifecycle
  import opened Runs
  import opened Reach
  import Artifacts
  import Listing

  datatype Selector = ByHash(h: Hash) | ByTag(env: Text, tag: Text) | ByRegime(regime: Text, effective: Date)

  datatype Resolution = Resolution(
    hash: Hash, state: LifecycleState, eventKind: Text, policyVersion: Text, revocation: Option<RevocationRecord>)

  /** The directory listing of the artifact store: every address once, in whatever order. */
  ghost predicate Lists(s: Reg, listing: seq<Hash>) {
    (forall h :: h in listing <==> h in s.artifacts) && Distinct(listing)
  }

  ghost predicate Distinct(hs: seq<Hash>) {
    forall i, j | 0 <= i < j < |hs| :: hs[i] != hs[j]
  }

  /** Each stored manifest under the hash it claims; one undecodable file fails the whole listing. */
  function Manifests(w: World, s: Reg, listing: seq<Hash>): Result<seq<Manifest>, Registry.Error>
    requires forall h :: h in listing ==> h in s.artifacts
  {
    if listing == [] then Ok([])
    else
      var last := |listing| - 1;
      match Manifests(w, s, listing[..last])
      case Err(e) => Err(e)
      case Ok(ms) =>
        match Stored(w, s, listing[last])
        case Err(e) => Err(e)
        case Ok(a) => Ok(ms + [a.manifest])
  }

  /** The listing, in the order of the claimed hashes. */
  function Listed(w: World, s: Reg, listing: seq<Hash>): Result<seq<Manifest>, Registry.Error>
    requires forall h :: h in listing ==> h in s.artifacts
  {
    match Manifests(w, s, listing)
    case Err(e) => Err(e)
    case Ok(ms) => Ok(Listing.ByHash(ms))
  }

  /** The claimed hashes of a regime's manifests effective at a date and Published now. */
  function Matches(w: World, s: Reg, ms: seq<Manifest>, regime: Text, date: Date): Result<seq<Hash>, Registry.Error> {
    if ms == [] then Ok([])
    else
      var m := ms[|ms| - 1];
      match Matches(w, s, ms[..|ms| - 1], regime, date)
      case Err(e) => Err(e)
      case Ok(hs) =>
        if m.regimeId != regime || !WindowContains(m.effectiveFrom, m.effectiveTo, date) then Ok(hs)
        else
          match CurrentState(RegistryChain(w), Log(s, m.hash))
          case Err(e) => Err(BadLog(e))
          case Ok(state) => Ok(if state == Some(Published) then hs + [m.hash] else hs)
  }

  function Target(w: World, s: Reg, listing: seq<Hash>, selector: Selector): Result<Hash, Registry.Error>
    requires forall h :: h in listing ==> h in s.artifacts
  {
    match selector
    case ByHash(h) => Ok(h)
    case ByTag(env, tag) => if (env, tag) in s.tags then Ok(s.tags[(env, tag)].target) else Err(NotFound)
    case ByRegime(regime, date) =>
      match Listed(w, s, listing)
      case Err(e) => Err(e)
      case Ok(ms) =>
        match Matches(w, s, ms, regime, date)
        case Err(e) => Err(e)
        case Ok(hs) => Chosen(hs)
  }

  function Chosen(hs: seq<Hash>): Result<Hash, Registry.Error> {
    if |hs| == 0 then Err(NotFound) else if |hs| == 1 then Ok(hs[0]) else Err(Ambiguous(|hs|))
  }

  /** The first manifest claiming a hash. */
  function Claiming(ms: seq<Manifest>, h: Hash): (r: Option<Manifest>)
    ensures r.Some? ==> r.value in ms && r.value.hash == h
    ensures r.None? ==> forall m :: m in ms ==> m.hash != h
  {
    if ms == [] then None else if ms[0].hash == h then Some(ms[0]) else Claiming(ms[1..], h)
  }

  function Describe(w: World, s: Reg, listing: seq<Hash>, h: Hash): Result<Resolution, Registry.Error>
    requires forall g :: g in listing ==> g in s.artifacts
  {
    match CurrentState(RegistryChain(w), Log(s, h))
    case Err(e) => Err(BadLog(e))
    case Ok(None) => Err(NotFound)
    case Ok(Some(state)) =>
      match Listed(w, s, listing)
      case Err(e) => Err(e)
      case Ok(ms) =>
        match Claiming(ms, h)
        case None => Err(NotFound)
        case Some(m) =>
          if m.hash != h then Err(ResolvedHashMismatch)
          else
            var record := if state == Revoked && h in s.revocations then Some(s.revocations[h]) else None;
            Ok(Resolution(h, state, LastKind(Log(s, h)), m.attestationPolicyVersion, record))
  }

  function LastKind(log: seq<Event>): Text {
    if log == [] then [] else log[|log| - 1].kind
  }

  function ResolveIn(w: World, s: Reg, listing: seq<Hash>, selector: Selector): Result<Resolution, Registry.Error>
    requires forall h :: h in listing ==> h in s.artifacts
  {
    match Target(w, s, listing, selector)
    case Err(e) => Err(e)
    case Ok(h) => Describe(w, s, listing, h)
  }

  // ---- the loops ----

  method ListManifests(w: World, s: Reg, listing: seq<Hash>) returns (r: Result<seq<Manifest>, Registry.Error>)
    requires forall h :: h in listing ==> h in s.artifacts
    ensures r == Listed(w, s, listing)
    ensures r.Ok? ==> Listing.InOrder(r.value) && multiset(r.value) == multiset(Manifests(w, s, listing).value)
  {
    var ms: seq<Manifest> := [];
    for i := 0 to |listing|
      invariant Manifests(w, s, listing[..i]) == Ok(ms)
    {
      assert listing[..i + 1][..i] == listing[..i];
      var stored := Stored(w, s, listing[i]);
      if stored.Err? {
        ManifestErrorPersists(w, s, listing, i + 1);
        return Err(stored.error);
      }
      ms := ms + [stored.value.manifest];
    }
    assert listing[..|listing|] == listing;
    ms := Listing.SortByHash(ms);
    r := Ok(ms);
  }

  lemma {:induction false} ManifestErrorPersists(w: World, s: Reg, listing: seq<Hash>, n: nat)
    requires n <= |listing| && forall h :: h in listing ==> h in s.artifacts
    requires Manifests(w, s, listing[..n]).Err?
    ensures Manifests(w, s, listing) == Manifests(w, s, listing[..n])
    decreases |listing|
  {
    if n < |listing| {
      var shorter := listing[..|listing| - 1];
      assert shorter[..n] == listing[..n];
      ManifestErrorPersists(w, s, shorter, n);
    } else {
      assert listing[..n] == listing;
    }
  }

  method FindMatches(w: World, s: Reg, ms: seq<Manifest>, regime: Text, date: Date) returns (r: Result<seq<Hash>, Registry.Error>)
    ensures r == Matches(w, s, ms, regime, date)
  {
    var hs: seq<Hash> := [];
    for i := 0 to |ms|
      invariant Matches(w, s, ms[..i], regime, date) == Ok(hs)
    {
      assert ms[..i + 1][..i] == ms[..i];
      var m := ms[i];
      if m.regimeId == regime && WindowContains(m.effectiveFrom, m.effectiveTo, date) {
        var walked := WalkLog(RegistryChain(w), Log(s, m.hash));
        if walked.Err? {
          MatchErrorPersists(w, s, ms, regime, date, i + 1);
          return Err(BadLog(walked.error));
        }
        if walked.value == Some(Published) {
          hs := hs + [m.hash];
        }
      }
    }
    assert ms[..|ms|] == ms;
    r := Ok(hs);
  }

  lemma {:induction false} MatchErrorPersists(w: World, s: Reg, ms: seq<Manifest>, regime: Text, date: Date, n: nat)
    requires n <= |ms| && Matches(w, s, ms[..n], regime, date).Err?
    ensures Matches(w, s, ms, regime, date) == Matches(w, s, ms[..n], regime, date)
    decreases |ms|
  {
    if n < |ms| {
      var shorter := ms[..|ms| - 1];
      assert shorter[..n] == ms[..n];
      MatchErrorPersists(w, s, shorter, regime, date, n);
    } else {
      assert ms[..n] == ms;
    }
  }

  // ---- what resolution finds in a good registry ----

  /** Published, of the regime, and effective at the date: from its first day on, and before its last. */
  ghost predicate Candidate(w: World, s: Reg, regime: Text, date: Date, h: Hash) {
    h in s.artifacts && StateOf(Log(s, h)) == Some(Published) && Stored(w, s, h).Ok? &&
    var m := Stored(w, s, h).value.manifest;
    m.regimeId == regime && !Calendar.Before(date, m.effectiveFrom) && (m.effectiveTo.Some? ==> Calendar.Before(date, m.effectiveTo.value))
  }

  /** What is filed at an address decodes and claims that address. */
  ghost predicate ClaimsAddress(w: World, s: Reg, h: Hash) {
    Stored(w, s, h).Ok? && Stored(w, s, h).value.manifest.hash == h
  }

  lemma StoredClaims(w: World, s: Reg, h: Hash)
    requires Good(LawsOf(w), s) && h in s.artifacts
    ensures ClaimsAddress(w, s, h)
  {
    var a := StoredIs(w, s, h);
  }

  /** What is filed at an address decodes to this manifest, which claims that address. */
  predicate FoundAt(w: World, s: Reg, h: Hash, m: Manifest) {
    m.hash == h && Stored(w, s, h).Ok? && Stored(w, s, h).value.manifest == m
  }

  function FoundIn(w: World, s: Reg): (Hash, Manifest) -> bool {
    (h: Hash, m: Manifest) => FoundAt(w, s, h, m)
  }

  ghost predicate Pairwise(p: (Hash, Manifest) -> bool, listing: seq<Hash>, ms: seq<Manifest>) {
    |ms| == |listing| && forall i | 0 <= i < |ms| :: p(listing[i], ms[i])
  }

  /** The manifests of a listing whose files all claim their own addresses. */
  ghost predicate Found(w: World, s: Reg, listing: seq<Hash>, ms: seq<Manifest>) {
    Pairwise(FoundIn(w, s), listing, ms)
  }

  /** What is filed at an address decodes to this manifest. */
  function ReadIn(w: World, s: Reg): (Hash, Manifest) -> bool {
    (h: Hash, m: Manifest) => Stored(w, s, h).Ok? && Stored(w, s, h).value.manifest == m
  }

  lemma {:induction false} ManifestsRead(w: World, s: Reg, listing: seq<Hash>)
    requires forall h :: h in listing ==> h in s.artifacts && Stored(w, s, h).Ok?
    ensures Manifests(w, s, listing).Ok? && Pairwise(ReadIn(w, s), listing, Manifests(w, s, listing).value)
  {
    if listing != [] {
      var last := |listing| - 1;
      ManifestsRead(w, s, listing[..last]);
      assert Stored(w, s, listing[last]).Ok?;
      PairwiseMore(ReadIn(w, s), listing, Manifests(w, s, listing[..last]).value, Stored(w, s, listing[last]).value.manifest);
    }
  }

  /** In a good registry every listing reads; put in order, each manifest claims the address it is filed under. */
  lemma ListingFound(w: World, s: Reg, listing: seq<Hash>) returns (order: seq<Hash>, ms: seq<Manifest>)
    requires Good(LawsOf(w), s) && Lists(s, listing)
    ensures Listed(w, s, listing) == Ok(ms) && Lists(s, order) && Found(w, s, order, ms)
  {
    forall h | h in listing
      ensures ClaimsAddress(w, s, h)
    {
      StoredClaims(w, s, h);
    }
    ManifestsRead(w, s, listing);
    var read := Manifests(w, s, listing).value;
    ReadIsFound(w, s, listing, read);
    order := OrderFound(FoundIn(w, s), listing, read);
    ms := Listing.ByHash(read);
    SameLists(s, listing, order);
  }

  lemma ReadIsFound(w: World, s: Reg, listing: seq<Hash>, ms: seq<Manifest>)
    requires Pairwise(ReadIn(w, s), listing, ms) && forall h :: h in listing ==> ClaimsAddress(w, s, h)
    ensures Found(w, s, listing, ms)
  {
    forall i | 0 <= i < |ms|
      ensures FoundIn(w, s)(listing[i], ms[i])
    {
      assert ReadIn(w, s)(listing[i], ms[i]) && ClaimsAddress(w, s, listing[i]);
    }
  }

  lemma SameLists(s: Reg, listing: seq<Hash>, order: seq<Hash>)
    requires Lists(s, listing) && Distinct(order) && forall h :: h in order <==> h in listing
    ensures Lists(s, order)
  {
  }

  /** The order of the sorted manifests, where each manifest goes with the hash it claims. */
  lemma OrderFound(p: (Hash, Manifest) -> bool, listing: seq<Hash>, ms: seq<Manifest>) returns (order: seq<Hash>)
    requires Pairwise(p, listing, ms) && Distinct(listing) && forall h, m | p(h, m) :: m.hash == h
    ensures Pairwise(p, order, Listing.ByHash(ms)) && Distinct(order) && forall h :: h in order <==> h in listing
  {
    var sorted := Listing.ByHash(ms);
    order := seq(|sorted|, i requires 0 <= i < |sorted| => sorted[i].hash);
    forall i | 0 <= i < |ms|
      ensures ms[i].hash == listing[i]
    {
      assert p(listing[i], ms[i]);
    }
    Listing.ByHashDistinct(ms);
    forall i | 0 <= i < |sorted|
      ensures p(order[i], sorted[i]) && order[i] in listing
    {
      Listing.ByHashHas(ms, sorted[i]);
      var j :| 0 <= j < |ms| && ms[j] == sorted[i];
      assert p(listing[j], ms[j]);
    }
    forall h | h in listing
      ensures h in order
    {
      var j :| 0 <= j < |listing| && listing[j] == h;
      Listing.ByHashHas(ms, ms[j]);
      var i :| 0 <= i < |sorted| && sorted[i] == ms[j];
      assert order[i] == h;
    }
  }

  lemma PairwiseMore(p: (Hash, Manifest) -> bool, listing: seq<Hash>, ms: seq<Manifest>, m: Manifest)
    requires listing != [] && Pairwise(p, listing[..|listing| - 1], ms) && p(listing[|listing| - 1], m)
    ensures Pairwise(p, listing, ms + [m])
  {
    var last := |listing| - 1;
    assert forall i | 0 <= i < last :: listing[..last][i] == listing[i];
  }

  lemma LogWalks(w: World, l: Laws, s: Reg, h: Hash)
    requires l.chain == RegistryChain(w) && Good(l, s)
    ensures CurrentState(RegistryChain(w), Log(s, h)) == Ok(StateOf(Log(s, h)))
  {
    if Log(s, h) != [] {
      GoodLog(l, s, h);
    }
  }

  lemma AllWalk(w: World, l: Laws, s: Reg)
    requires l.chain == RegistryChain(w) && Good(l, s)
    ensures forall h :: CurrentState(RegistryChain(w), Log(s, h)) == Ok(StateOf(Log(s, h)))
  {
    forall h: Hash
      ensures CurrentState(RegistryChain(w), Log(s, h)) == Ok(StateOf(Log(s, h)))
    {
      LogWalks(w, l, s, h);
    }
  }

  predicate Wanted(s: Reg, regime: Text, date: Date, m: Manifest) {
    m.regimeId == regime && WindowContains(m.effectiveFrom, m.effectiveTo, date) && StateOf(Log(s, m.hash)) == Some(Published)
  }

  function Picked(s: Reg, ms: seq<Manifest>, regime: Text, date: Date): seq<Hash> {
    if ms == [] then []
    else
      var m := ms[|ms| - 1];
      Picked(s, ms[..|ms| - 1], regime, date) + if Wanted(s, regime, date, m) then [m.hash] else []
  }

  lemma {:induction false} MatchesArePicked(w: World, s: Reg, ms: seq<Manifest>, regime: Text, date: Date)
    requires forall h :: CurrentState(RegistryChain(w), Log(s, h)) == Ok(StateOf(Log(s, h)))
    ensures Matches(w, s, ms, regime, date) == Ok(Picked(s, ms, regime, date))
  {
    if ms != [] {
      MatchesArePicked(w, s, ms[..|ms| - 1], regime, date);
      var (m, hs) := (ms[|ms| - 1], Picked(s, ms[..|ms| - 1], regime, date));
      assert CurrentState(RegistryChain(w), Log(s, m.hash)) == Ok(StateOf(Log(s, m.hash)));
      assert hs + [] == hs;
    }
  }

  lemma {:induction false} PickedFrom(s: Reg, ms: seq<Manifest>, regime: Text, date: Date, h: Hash) returns (i: nat)
    requires h in Picked(s, ms, regime, date)
    ensures i < |ms| && ms[i].hash == h && Wanted(s, regime, date, ms[i])
  {
    var last := |ms| - 1;
    if h in Picked(s, ms[..last], regime, date) {
      i := PickedFrom(s, ms[..last], regime, date, h);
    } else {
      i := last;
    }
  }

  lemma {:induction false} PicksWanted(s: Reg, ms: seq<Manifest>, regime: Text, date: Date, i: nat)
    requires i < |ms| && Wanted(s, regime, date, ms[i])
    ensures ms[i].hash in Picked(s, ms, regime, date)
    decreases |ms|
  {
    if i < |ms| - 1 {
      PicksWanted(s, ms[..|ms| - 1], regime, date, i);
    }
  }

  lemma {:induction false} PickedOnce(s: Reg, ms: seq<Manifest>, regime: Text, date: Date)
    requires forall i, j | 0 <= i < j < |ms| :: ms[i].hash != ms[j].hash
    ensures Distinct(Picked(s, ms, regime, date))
  {
    if ms != [] {
      var last := |ms| - 1;
      PickedOnce(s, ms[..last], regime, date);
      if ms[last].hash in Picked(s, ms[..last], regime, date) {
        var i := PickedFrom(s, ms[..last], regime, date, ms[last].hash);
      }
    }
  }

  lemma OnlyOne(hs: seq<Hash>, h: Hash)
    requires Distinct(hs) && h in hs && forall g :: g in hs ==> g == h
    ensures |hs| == 1
  {
    if |hs| > 1 {
      IsIt(hs, h, 0);
      IsIt(hs, h, 1);
    }
  }

  lemma IsIt(hs: seq<Hash>, h: Hash, i: nat)
    requires i < |hs| && forall g :: g in hs ==> g == h
    ensures hs[i] == h
  {
    assert hs[i] in hs;
  }

  ghost function Candidates(w: World, s: Reg, regime: Text, date: Date): Hash -> bool {
    (h: Hash) => Candidate(w, s, regime, date, h)
  }

  ghost predicate Only(p: Hash -> bool, h: Hash) {
    p(h) && forall g :: p(g) ==> g == h
  }

  /**
   Resolution by regime succeeds exactly when one artifact of the regime is both Published and effective on the
   date; it returns that artifact, which rehashes to its address.
   */
  lemma RegimeResolvesExactly(w: World, s: Reg, listing: seq<Hash>, regime: Text, date: Date)
    requires Honest(w) && Good(LawsOf(w), s) && Lists(s, listing)
    ensures var r := ResolveIn(w, s, listing, ByRegime(regime, date));
            (r.Ok? <==> exists h :: Only(Candidates(w, s, regime, date), h)) &&
            (r.Ok? ==>
               Only(Candidates(w, s, regime, date), r.value.hash) && Described(w, s, r.value.hash, r.value) &&
               r.value.state == Published && r.value.revocation.None? &&
               Artifacts.VerifyHash(w.suite, w.profile, s.artifacts[r.value.hash]) == Ok(r.value.hash)) &&
            (r.Err? ==>
               exists hs :: Distinct(hs) && Comprise(hs, Candidates(w, s, regime, date)) &&
                            r.error == if hs == [] then NotFound else Ambiguous(|hs|))
  {
    var hs := RegimeMatches(w, s, listing, regime, date);
    if |hs| == 1 {
      OneIsOnly(hs, Candidates(w, s, regime, date));
      CandidateHasLog(w, s, regime, date, hs[0]);
      DescribeFound(w, s, listing, hs[0]);
      NotRevoked(LawsOf(w), s, hs[0]);
    } else {
      ElseNoOnly(hs, Candidates(w, s, regime, date));
      assert Distinct(hs) && Comprise(hs, Candidates(w, s, regime, date));
    }
  }

  /** Exactly the addresses that are. */
  ghost predicate Comprise(hs: seq<Hash>, p: Hash -> bool) {
    forall h :: h in hs <==> p(h)
  }

  lemma NotRevoked(l: Laws, s: Reg, h: Hash)
    requires Good(l, s) && StateOf(Log(s, h)) == Some(Published)
    ensures h !in s.revocations
  {
  }

  lemma OneIsOnly(hs: seq<Hash>, p: Hash -> bool)
    requires |hs| == 1 && forall h :: h in hs <==> p(h)
    ensures Only(p, hs[0])
  {
    assert hs[0] in hs;
  }

  lemma ElseNoOnly(hs: seq<Hash>, p: Hash -> bool)
    requires |hs| != 1 && Distinct(hs) && forall h :: h in hs <==> p(h)
    ensures !exists h :: Only(p, h)
  {
    if h :| Only(p, h) {
      OnlyOne(hs, h);
    }
  }

  lemma CandidateHasLog(w: World, s: Reg, regime: Text, date: Date, h: Hash)
    requires Candidate(w, s, regime, date, h)
    ensures StateOf(Log(s, h)) == Some(Published)
  {
  }

  lemma RegimeMatches(w: World, s: Reg, listing: seq<Hash>, regime: Text, date: Date) returns (hs: seq<Hash>)
    requires Good(LawsOf(w), s) && Lists(s, listing)
    ensures Distinct(hs) && forall h :: h in hs <==> Candidates(w, s, regime, date)(h)
    ensures Target(w, s, listing, ByRegime(regime, date)) == Chosen(hs)
  {
    var order, ms := ListingFound(w, s, listing);
    AllWalk(w, LawsOf(w), s);
    MatchesArePicked(w, s, ms, regime, date);
    FoundDistinct(w, s, order, ms);
    PickedOnce(s, ms, regime, date);
    hs := Picked(s, ms, regime, date);
    forall h: Hash
      ensures h in hs <==> Candidates(w, s, regime, date)(h)
    {
      PickedAreCandidates(w, s, order, ms, regime, date, h);
    }
  }

  lemma FoundDistinct(w: World, s: Reg, listing: seq<Hash>, ms: seq<Manifest>)
    requires Distinct(listing) && Found(w, s, listing, ms)
    ensures forall i, j | 0 <= i < j < |ms| :: ms[i].hash != ms[j].hash
  {
    forall i | 0 <= i < |ms|
      ensures ms[i].hash == listing[i]
    {
      assert FoundIn(w, s)(listing[i], ms[i]);
    }
  }

  lemma FoundPair(w: World, s: Reg, listing: seq<Hash>, ms: seq<Manifest>, i: nat)
    requires Found(w, s, listing, ms) && i < |ms|
    ensures |ms| == |listing| && FoundAt(w, s, listing[i], ms[i])
  {
    assert FoundIn(w, s)(listing[i], ms[i]);
  }

  lemma WantedIsCandidate(w: World, s: Reg, regime: Text, date: Date, h: Hash, m: Manifest)
    requires FoundAt(w, s, h, m) && h in s.artifacts
    ensures Wanted(s, regime, date, m) <==> Candidate(w, s, regime, date, h)
  {
  }

  lemma PickedAreCandidates(w: World, s: Reg, listing: seq<Hash>, ms: seq<Manifest>, regime: Text, date: Date, h: Hash)
    requires Lists(s, listing) && Found(w, s, listing, ms)
    ensures h in Picked(s, ms, regime, date) <==> Candidate(w, s, regime, date, h)
  {
    if h in Picked(s, ms, regime, date) {
      var i := PickedFrom(s, ms, regime, date, h);
      FoundPair(w, s, listing, ms, i);
      assert listing[i] in listing;
      WantedIsCandidate(w, s, regime, date, h, ms[i]);
    } else if h in listing {
      var i :| 0 <= i < |listing| && listing[i] == h;
      NotWanted(w, s, listing, ms, regime, date, i);
    }
  }

  lemma NotWanted(w: World, s: Reg, listing: seq<Hash>, ms: seq<Manifest>, regime: Text, date: Date, i: nat)
    requires Lists(s, listing) && Found(w, s, listing, ms) && i < |listing| && listing[i] !in Picked(s, ms, regime, date)
    ensures !Candidate(w, s, regime, date, listing[i])
  {
    FoundPair(w, s, listing, ms, i);
    assert listing[i] in listing;
    WantedIsCandidate(w, s, regime, date, listing[i], ms[i]);
    if Wanted(s, regime, date, ms[i]) {
      PicksWanted(s, ms, regime, date, i);
    }
  }

  /** What is known of an address once it is targeted. */
  lemma DescribeFound(w: World, s: Reg, listing: seq<Hash>, h: Hash)
    requires Honest(w) && Good(LawsOf(w), s) && Lists(s, listing)
    ensures var r := Describe(w, s, listing, h);
            if Log(s, h) == [] then r == Err(NotFound)
            else
              r.Ok? && Described(w, s, h, r.value) && Artifacts.VerifyHash(w.suite, w.profile, s.artifacts[h]) == Ok(h)
  {
    LogWalks(w, LawsOf(w), s, h);
    if Log(s, h) != [] {
      GoodLog(LawsOf(w), s, h);
      var m := Claimed(w, s, listing, h);
      FiledVerifies(w, s, h);
      if h in s.revocations {
        RecordsOnlyRevoked(LawsOf(w), s, h);
      }
      DescribeIs(w, s, listing, h, m);
    } else {
      Undescribed(w, s, listing, h);
    }
  }

  /** The resolution tells where the artifact's history stands, by which event, under which policy version, and any record of its revocation. */
  predicate Described(w: World, s: Reg, h: Hash, r: Resolution) {
    var log := Log(s, h);
    && log != [] && h in s.artifacts && Stored(w, s, h).Ok?
    && r.hash == h && r.state == log[|log| - 1].newState && r.eventKind == log[|log| - 1].kind
    && r.policyVersion == Stored(w, s, h).value.manifest.attestationPolicyVersion
    && r.revocation == if h in s.revocations then Some(s.revocations[h]) else None
  }

  lemma Undescribed(w: World, s: Reg, listing: seq<Hash>, h: Hash)
    requires (forall g :: g in listing ==> g in s.artifacts) && CurrentState(RegistryChain(w), Log(s, h)) == Ok(None)
    ensures Describe(w, s, listing, h) == Err(NotFound)
  {
  }

  lemma DescribeIs(w: World, s: Reg, listing: seq<Hash>, h: Hash, m: Manifest)
    requires forall g :: g in listing ==> g in s.artifacts
    requires Log(s, h) != [] && CurrentState(RegistryChain(w), Log(s, h)) == Ok(StateOf(Log(s, h)))
    requires Listed(w, s, listing).Ok? && Claiming(Listed(w, s, listing).value, h) == Some(m)
    ensures var state := StateOf(Log(s, h)).value;
            Describe(w, s, listing, h) ==
            Ok(Resolution(h, state, Log(s, h)[|Log(s, h)| - 1].kind, m.attestationPolicyVersion,
                          if state == Revoked && h in s.revocations then Some(s.revocations[h]) else None))
  {
  }

  lemma RecordsOnlyRevoked(l: Laws, s: Reg, h: Hash)
    requires Good(l, s) && h in s.revocations
    ensures StateOf(Log(s, h)) == Some(Revoked)
  {
  }

  /** The listing yields a manifest for every address in it. */
  lemma Claimed(w: World, s: Reg, listing: seq<Hash>, h: Hash) returns (m: Manifest)
    requires Good(LawsOf(w), s) && Lists(s, listing) && h in s.artifacts
    ensures Listed(w, s, listing).Ok? && Claiming(Listed(w, s, listing).value, h) == Some(m) && FoundAt(w, s, h, m)
  {
    var order, ms := ListingFound(w, s, listing);
    ManifestOf(w, s, order, ms, h);
    m := Claiming(ms, h).value;
  }

  lemma ManifestOf(w: World, s: Reg, listing: seq<Hash>, ms: seq<Manifest>, h: Hash)
    requires Found(w, s, listing, ms) && h in listing
    ensures Claiming(ms, h).Some? && FoundAt(w, s, h, Claiming(ms, h).value)
  {
    var i :| 0 <= i < |listing| && listing[i] == h;
    assert FoundIn(w, s)(listing[i], ms[i]);
    assert ms[i] in ms && ms[i].hash == h;
    var m := Claiming(ms, h).value;
    var j :| 0 <= j < |ms| && ms[j] == m;
    assert FoundIn(w, s)(listing[j], ms[j]);
  }

  /** Resolution by hash succeeds exactly when the artifact has a history, and reports where that history stands. */
  lemma HashResolvesExactly(w: World, s: Reg, listing: seq<Hash>, h: Hash)
    requires Honest(w) && Good(LawsOf(w), s) && Lists(s, listing)
    ensures var r := ResolveIn(w, s, listing, ByHash(h));
            if Log(s, h) == [] then r == Err(NotFound)
            else r.Ok? && Described(w, s, h, r.value) && Artifacts.VerifyHash(w.suite, w.profile, s.artifacts[h]) == Ok(h)
  {
    DescribeFound(w, s, listing, h);
  }

  // ---- the order of the listing ----

  /** Every stored file decodes, and no two claim one hash. */
  ghost predicate ClaimsDistinct(w: World, s: Reg) {
    && (forall h :: h in s.artifacts ==> Stored(w, s, h).Ok?)
    && (forall g, h | g in s.artifacts && h in s.artifacts && g != h ::
          Stored(w, s, g).value.manifest.hash != Stored(w, s, h).value.manifest.hash)
  }

  lemma ListedInOrder(w: World, s: Reg, listing: seq<Hash>) returns (ms: seq<Manifest>)
    requires Lists(s, listing) && ClaimsDistinct(w, s)
    ensures Listed(w, s, listing) == Ok(ms) && Listing.InOrder(ms) && Listing.DistinctHashes(ms)
    ensures forall m :: m in ms <==> exists h :: h in s.artifacts && ReadIn(w, s)(h, m)
  {
    ManifestsRead(w, s, listing);
    var read := Manifests(w, s, listing).value;
    ms := Listing.ByHash(read);
    ReadDistinct(w, s, listing, read);
    Listing.ByHashSorts(read);
    Listing.ByHashDistinct(read);
    forall m
      ensures m in ms <==> exists h :: h in s.artifacts && ReadIn(w, s)(h, m)
    {
      Listing.ByHashHas(read, m);
      ReadsEvery(w, s, listing, read, m);
    }
  }

  lemma ReadDistinct(w: World, s: Reg, listing: seq<Hash>, ms: seq<Manifest>)
    requires Lists(s, listing) && ClaimsDistinct(w, s) && Pairwise(ReadIn(w, s), listing, ms)
    ensures Listing.DistinctHashes(ms)
  {
    forall i, j | 0 <= i < j < |ms|
      ensures ms[i].hash != ms[j].hash
    {
      assert ReadIn(w, s)(listing[i], ms[i]) && ReadIn(w, s)(listing[j], ms[j]);
      assert listing[i] in listing && listing[j] in listing;
    }
  }

  lemma ReadsEvery(w: World, s: Reg, listing: seq<Hash>, ms: seq<Manifest>, m: Manifest)
    requires Lists(s, listing) && Pairwise(ReadIn(w, s), listing, ms)
    ensures m in ms <==> exists h :: h in s.artifacts && ReadIn(w, s)(h, m)
  {
    if m in ms {
      var i :| 0 <= i < |ms| && ms[i] == m;
      assert listing[i] in listing && ReadIn(w, s)(listing[i], m);
    }
    if h :| h in s.artifacts && ReadIn(w, s)(h, m) {
      ReadsThis(w, s, listing, ms, h, m);
    }
  }

  lemma ReadsThis(w: World, s: Reg, listing: seq<Hash>, ms: seq<Manifest>, h: Hash, m: Manifest)
    requires h in listing && Pairwise(ReadIn(w, s), listing, ms) && ReadIn(w, s)(h, m)
    ensures m in ms
  {
    var i :| 0 <= i < |listing| && listing[i] == h;
    assert ReadIn(w, s)(listing[i], ms[i]);
  }

  /** What the sort is for: unless two stored files claim one hash, the order the directory is listed in leaves no trace. */
  lemma ListedAlike(w: World, s: Reg, a: seq<Hash>, b: seq<Hash>)
    requires Lists(s, a) && Lists(s, b) && ClaimsDistinct(w, s)
    ensures Listed(w, s, a) == Listed(w, s, b)
  {
    var ms := ListedInOrder(w, s, a);
    var ns := ListedInOrder(w, s, b);
    Listing.OneOrder(ms, ns);
  }

  /** Whatever order the directory lists the store in, resolution gives one answer, in registries the commands did not make too. */
  lemma ListingOrderIsIrrelevant(w: World, s: Reg, a: seq<Hash>, b: seq<Hash>, selector: Selector)
    requires Lists(s, a) && Lists(s, b) && ClaimsDistinct(w, s)
    ensures ResolveIn(w, s, a, selector) == ResolveIn(w, s, b, selector)
  {
    ListedAlike(w, s, a, b);
    TargetAlike(w, s, a, b, selector);
    var target := Target(w, s, a, selector);
    if target.Ok? {
      DescribeAlike(w, s, a, b, target.value);
    }
  }

  lemma TargetAlike(w: World, s: Reg, a: seq<Hash>, b: seq<Hash>, selector: Selector)
    requires Lists(s, a) && Lists(s, b) && Listed(w, s, a) == Listed(w, s, b)
    ensures Target(w, s, a, selector) == Target(w, s, b, selector)
  {
  }

  lemma DescribeAlike(w: World, s: Reg, a: seq<Hash>, b: seq<Hash>, h: Hash)
    requires Lists(s, a) && Lists(s, b) && Listed(w, s, a) == Listed(w, s, b)
    ensures Describe(w, s, a, h) == Describe(w, s, b, h)
  {
  }

  /** In registries the commands made no two files claim one hash. */
  lemma GoodClaimsDistinct(w: World, s: Reg)
    requires Good(LawsOf(w), s)
    ensures ClaimsDistinct(w, s)
  {
    forall h | h in s.artifacts
      ensures ClaimsAddress(w, s, h)
    {
      StoredClaims(w, s, h);
    }
  }

  // ---- tags ----

  /** Every tag resolves, to an artifact that was published and may since have been deprecated or revoked. */
  lemma TagResolvesExactly(w: World, s: Reg, listing: seq<Hash>, env: Text, tag: Text)
    requires Honest(w) && Good(LawsOf(w), s) && Lists(s, listing)
    ensures var r := ResolveIn(w, s, listing, ByTag(env, tag));
            if (env, tag) !in s.tags then r == Err(NotFound)
            else
              r.Ok? && r.value.hash == s.tags[(env, tag)].target && Described(w, s, r.value.hash, r.value) &&
              Rank(r.value.state) >= Rank(Published)
  {
    TagIsTarget(w, s, listing, env, tag);
    if (env, tag) in s.tags {
      TaggedWasPublished(LawsOf(w), s, env, tag);
      DescribeFound(w, s, listing, s.tags[(env, tag)].target);
    }
  }

  lemma TagIsTarget(w: World, s: Reg, listing: seq<Hash>, env: Text, tag: Text)
    requires forall h :: h in listing ==> h in s.artifacts
    ensures ResolveIn(w, s, listing, ByTag(env, tag)) ==
            if (env, tag) in s.tags then Describe(w, s, listing, s.tags[(env, tag)].target) else Err(NotFound)
  {
  }

  lemma TaggedWasPublished(l: Laws, s: Reg, env: Text, tag: Text)
    requires Good(l, s) && (env, tag) in s.tags
    ensures var log := Log(s, s.tags[(env, tag)].target); log != [] && Rank(StateOf(log).value) >= Rank(Published)
  {
    var h := s.tags[(env, tag)].target;
    TaggedReached(s, env, tag);
    GoodLog(l, s, h);
    ReachedEarlier(l.chain, h, Log(s, h));
  }

  lemma ReachedEarlier(k: Chain, h: Hash, log: seq<Event>)
    requires LogOk(k, h, log) && Reached(log, Published)
    ensures log != [] && Rank(StateOf(log).value) >= Rank(Published)
  {
    var i :| 0 <= i < |log| && log[i].newState == Published;
    RankAfter(k, h, log, i);
  }

  lemma RankAfter(k: Chain, h: Hash, log: seq<Event>, i: nat)
    requires LogOk(k, h, log) && i < |log|
    ensures Rank(log[|log| - 1].newState) >= Rank(log[i].newState)
  {
    RanksGrow(k, h, log, i, |log| - 1);
  }

  lemma TaggedReached(s: Reg, env: Text, tag: Text)
    requires GoodReferences(s) && (env, tag) in s.tags
    ensures Reached(Log(s, s.tags[(env, tag)].target), Published)
  {
  }

  /**
   Resolution compares the hash a file claims and does not rehash it: a registry filled by other means can hold a
   file that resolves and fails `VerifyHash`. In a registry the commands filled none does.
   */
  lemma ResolutionReadsTheClaim(w: World, a: Artifact, now: u64)
    requires Honest(w) && Artifacts.Canonical(w.profile, a)
    requires a.manifest.hash != w.suite.blake3(Artifacts.Envelope(Artifacts.WithHash(a, ZERO_HASH)))
    ensures var h := a.manifest.hash; var kew := Artifacts.Encode(a);
            var s := Reg(map[h := kew], map[h := [DraftEvent(w, h, now)]], map[], map[], map[]);
            ResolveIn(w, s, [h], ByHash(h)).Ok? && Artifacts.VerifyHash(w.suite, w.profile, kew).Err?
  {
    var h := a.manifest.hash;
    var log := [DraftEvent(w, h, now)];
    var s := Reg(map[h := Artifacts.Encode(a)], map[h := log], map[], map[], map[]);
    DraftWalks(w, h, now);
    Artifacts.DecodeEncode(w.profile, a);
    ResolvesSingle(w, s, h, a);
    UnsealedFails(w, a);
  }

  lemma DraftWalks(w: World, h: Hash, now: u64)
    requires Honest(w)
    ensures CurrentState(RegistryChain(w), [DraftEvent(w, h, now)]) == Ok(Some(Draft))
  {
    DraftFacts(w, h, now);
    var log := [DraftEvent(w, h, now)];
    assert ValidLog(RegistryChain(w), log);
  }

  lemma ResolvesSingle(w: World, s: Reg, h: Hash, a: Artifact)
    requires h in s.artifacts && Stored(w, s, h) == Ok(a) && a.manifest.hash == h
    requires CurrentState(RegistryChain(w), Log(s, h)) == Ok(Some(Draft))
    ensures ResolveIn(w, s, [h], ByHash(h)).Ok?
  {
    OneListed(w, s, h, a);
    assert Listed(w, s, [h]).value[0].hash == h;
  }

  lemma OneListed(w: World, s: Reg, h: Hash, a: Artifact)
    requires h in s.artifacts && Stored(w, s, h) == Ok(a)
    ensures Listed(w, s, [h]) == Ok([a.manifest])
  {
    assert [h][..0] == [];
    assert Manifests(w, s, []) == Ok([]);
    assert [] + [a.manifest] == [a.manifest];
    assert Manifests(w, s, [h]) == Ok([a.manifest]);
    OneInOrder(a.manifest);
  }

  lemma OneInOrder(m: Manifest)
    ensures Listing.ByHash([m]) == [m]
  {
    assert [m][..0] == [];
  }

  lemma UnsealedFails(w: World, a: Artifact)
    requires Artifacts.Canonical(w.profile, a)
    requires a.manifest.hash != w.suite.blake3(Artifacts.Envelope(Artifacts.WithHash(a, ZERO_HASH)))
    ensures Artifacts.VerifyHash(w.suite, w.profile, Artifacts.Encode(a)).Err?
  {
    Artifacts.DecodeEncode(w.profile, a);
    Artifacts.EncodeSplits(a);
    SplitAt(Artifacts.Envelope(a), EncAll(Artifacts.TailVals(a)));
    Artifacts.ContentHashOf(w.suite, a);
  }
}
