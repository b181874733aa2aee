/**
 The per-artifact lifecycle log: append-only, hash-chained, registry-root-signed. The state is whatever the last
 event of a valid log says.
 */
module Events {
  import opened Wrappers
  import opened Wire
  import opened Crypto
  import opened Records

  datatype LogError =
    | SeqGap(expected: u32, found: u32)
    | ChainGenesisInvalid(seqNo: u32)
    | ChainBroken(seqNo: u32)
    | SignatureInvalid(seqNo: u32)

  // ---- one event ----

  function PayloadPrefix(e: Event): bytes {
    EncAll(EventPayloadVals(e))
  }

  /** What the next event's link is computed over: every field, the signature included. */
  function CanonicalBytes(e: Event): bytes {
    Enc(EventVal(e))
  }

  function ChainHash(c: Suite, e: Event): Hash {
    c.blake3(CanonicalBytes(e))
  }

  /** The signed prefix as the code finds it: encode everything, read the payload back, cut there. */
  method RecoverPrefix(e: Event) returns (prefix: bytes)
    ensures prefix == PayloadPrefix(e) && CanonicalBytes(e) == prefix + e.signature
  {
    prefix := CanonicalBytes(e);
    PrefixRecovered(EVENT_PAYLOAD, EventPayloadVals(e), [VRaw(e.signature)]);
    EncAllConcat(EventPayloadVals(e), [VRaw(e.signature)]);
    assert EncAll([VRaw(e.signature)]) == e.signature + [];
    var read := Dec(SStruct(EVENT_PAYLOAD), prefix);
    prefix := prefix[..|prefix| - |read.rest|];
  }

  function SignEvent(c: Suite, rootKey: bytes, e: Event): Event {
    e.(signature := c.sign(rootKey, PayloadPrefix(e)))
  }

  predicate SignatureHolds(c: Suite, root: Hash, e: Event) {
    c.verify(root, PayloadPrefix(e), e.signature)
  }

  lemma SigningVerifies(c: Suite, rootKey: bytes, e: Event)
    requires Sound(c)
    ensures SignatureHolds(c, c.publicOf(rootKey), SignEvent(c, rootKey, e))
  {
    var s := SignEvent(c, rootKey, e);
    assert StepVal(s) == StepVal(e) && OriginVal(s) == OriginVal(e);
  }

  /** Two events with one canonical encoding are one event. */
  lemma CanonicalInjective(d: Event, e: Event)
    requires CanonicalBytes(d) == CanonicalBytes(e)
    ensures d == e
  {
    EncInjective(EVENT, EventVal(d), EventVal(e));
    EventValInjective(d, e);
  }

  // ---- the log ----

  /** The two checks a log walk rests on: an event's chain hash, and whether its signature holds. */
  datatype Chain = Chain(link: Event -> Hash, signed: Event -> bool)

  function ChainOf(c: Suite, root: Hash): Chain {
    Chain(e => ChainHash(c, e), e => SignatureHolds(c, root, e))
  }

  /** What is wrong with event `i`, given the events before it. A sequence number is 32 bits wide. */
  function Fault(k: Chain, log: seq<Event>, i: nat): Option<LogError>
    requires i < |log|
  {
    var e := log[i];
    if e.seqNo != i % 0x1_0000_0000 then Some(SeqGap(i % 0x1_0000_0000, e.seqNo))
    else if i == 0 && e.prevHash.Some? then Some(ChainGenesisInvalid(e.seqNo))
    else if i > 0 && e.prevHash.None? then Some(ChainGenesisInvalid(e.seqNo))
    else if i > 0 && e.prevHash.value != k.link(log[i - 1]) then Some(ChainBroken(e.seqNo))
    else if !k.signed(e) then Some(SignatureInvalid(e.seqNo))
    else None
  }

  predicate ValidLog(k: Chain, log: seq<Event>) {
    forall i | 0 <= i < |log| :: Fault(k, log, i).None?
  }

  /** The event names its predecessor by hash, and only the first has none. */
  predicate Linked(k: Chain, log: seq<Event>, i: nat)
    requires i < |log|
  {
    log[i].prevHash == if i == 0 then None else Some(k.link(log[i - 1]))
  }

  /** Each fault, and exactly when it is the one found: the number, then the presence of a link, the link, the signature. */
  lemma FaultExactly(k: Chain, log: seq<Event>, i: nat)
    requires i < |log|
    ensures var (e, fault) := (log[i], Fault(k, log, i)); var numbered := e.seqNo == i % 0x1_0000_0000;
            (forall x, y :: fault == Some(SeqGap(x, y)) <==> !numbered && x == i % 0x1_0000_0000 && y == e.seqNo) &&
            (forall n :: fault == Some(ChainGenesisInvalid(n)) <==> numbered && n == e.seqNo && (i == 0 <==> e.prevHash.Some?)) &&
            (forall n :: fault == Some(ChainBroken(n)) <==>
               numbered && n == e.seqNo && i > 0 && e.prevHash.Some? && e.prevHash.value != k.link(log[i - 1])) &&
            (forall n :: fault == Some(SignatureInvalid(n)) <==> numbered && n == e.seqNo && Linked(k, log, i) && !k.signed(e)) &&
            (fault.None? <==> numbered && Linked(k, log, i) && k.signed(e))
  {
  }

  function StateOf(log: seq<Event>): Option<LifecycleState> {
    if log == [] then None else Some(log[|log| - 1].newState)
  }

  /** The state the log ends in, or the first fault met walking it from the start. */
  function CurrentState(k: Chain, log: seq<Event>): (r: Result<Option<LifecycleState>, LogError>)
    ensures r.Ok? <==> ValidLog(k, log)
    ensures r.Ok? ==> r.value == StateOf(log)
  {
    if log == [] then Ok(None)
    else
      var last := |log| - 1;
      FaultsOfPrefix(k, log, last);
      match CurrentState(k, log[..last])
      case Err(e) => Err(e)
      case Ok(_) =>
        match Fault(k, log, last)
        case Some(e) => Err(e)
        case None => Ok(Some(log[last].newState))
  }

  lemma FaultsOfPrefix(k: Chain, log: seq<Event>, n: nat)
    requires n <= |log|
    ensures forall i | 0 <= i < n :: Fault(k, log[..n], i) == Fault(k, log, i)
  {
  }

  /** The walk as the code does it, carrying the chain hash of the event before. */
  method WalkLog(k: Chain, log: seq<Event>) returns (r: Result<Option<LifecycleState>, LogError>)
    ensures r == CurrentState(k, log)
    ensures r.Err? ==> exists i | 0 <= i < |log| ::
              Fault(k, log, i) == Some(r.error) && forall j | 0 <= j < i :: Fault(k, log, j).None?
  {
    var prior: Option<Hash> := None;
    for i := 0 to |log|
      invariant CurrentState(k, log[..i]) == Ok(StateOf(log[..i]))
      invariant prior == if i == 0 then None else Some(k.link(log[i - 1]))
      invariant forall j | 0 <= j < i :: Fault(k, log, j).None?
    {
      var e := log[i];
      ghost var upTo := log[..i + 1];
      assert upTo[..i] == log[..i] && upTo[i] == e;
      FaultsOfPrefix(k, log, i + 1);
      ErrorPersists(k, log, i + 1);
      var expected := i % 0x1_0000_0000;
      if e.seqNo != expected {
        return Err(SeqGap(expected, e.seqNo));
      }
      if (i == 0 && e.prevHash.Some?) || (i > 0 && e.prevHash.None?) {
        return Err(ChainGenesisInvalid(e.seqNo));
      }
      if i > 0 && e.prevHash != prior {
        return Err(ChainBroken(e.seqNo));
      }
      if !k.signed(e) {
        return Err(SignatureInvalid(e.seqNo));
      }
      prior := Some(k.link(e));
    }
    assert log[..|log|] == log;
    r := Ok(StateOf(log));
  }

  /** A fault met in a prefix is what the whole walk reports. */
  lemma {:induction false} ErrorPersists(k: Chain, log: seq<Event>, n: nat)
    requires n <= |log|
    ensures CurrentState(k, log[..n]).Err? ==> CurrentState(k, log) == CurrentState(k, log[..n])
    decreases |log|
  {
    if n < |log| {
      var shorter := log[..|log| - 1];
      ErrorPersists(k, shorter, n);
      assert shorter[..n] == log[..n];
    } else {
      assert log[..n] == log;
    }
  }

  lemma {:induction false} HeadPinsEvents(k: Chain, l: seq<Event>, m: seq<Event>) returns (d: Event, e: Event)
    requires ValidLog(k, l) && ValidLog(k, m) && l != [] && m != []
    requires k.link(l[|l| - 1]) == k.link(m[|m| - 1])
    ensures l == m || (d != e && k.link(d) == k.link(e))
  {
    var i, j := |l| - 1, |m| - 1;
    d, e := l[i], m[j];
    if d == e {
      assert Fault(k, l, i).None? && Fault(k, m, j).None?;
      if i > 0 {
        FaultsOfPrefix(k, l, i);
        FaultsOfPrefix(k, m, j);
        d, e := HeadPinsEvents(k, l[..i], m[..j]);
      }
      assert l == l[..i] + [l[i]] && m == m[..j] + [m[j]];
    }
  }

  /** A chain's head pins the whole chain: valid logs whose heads hash alike are the same log, or two events collide. */
  lemma HeadPinsLog(c: Suite, root: Hash, l: seq<Event>, m: seq<Event>) returns (d: Event, e: Event)
    requires ValidLog(ChainOf(c, root), l) && ValidLog(ChainOf(c, root), m) && l != [] && m != []
    requires ChainHash(c, l[|l| - 1]) == ChainHash(c, m[|m| - 1])
    ensures l == m || Collision(c, CanonicalBytes(d), CanonicalBytes(e))
  {
    d, e := HeadPinsEvents(ChainOf(c, root), l, m);
    if l != m && CanonicalBytes(d) == CanonicalBytes(e) {
      CanonicalInjective(d, e);
    }
  }
}
