/**
 Cut short or carried on: what reading makes of a file with bytes missing at its end, or with bytes after it. Nothing
 that was cut is ever taken for something shorter.
 */
module Truncation {
  import opened Wrappers
  import opened Wire
  import opened Crypto
  import opened Records
  import opened Artifacts

  // ---- more bytes after what was read ----

  lemma GotGrows(s: Shape, b: bytes, tail: bytes)
    requires Dec(s, b).Got?
    ensures Dec(s, b + tail) == Got(Dec(s, b).val, Dec(s, b).rest + tail)
  {
    var rest := Dec(s, b).rest;
    Local(s, b, rest + tail);
    Rejoined(b, rest, tail);
  }

  lemma Rejoined(b: bytes, rest: bytes, tail: bytes)
    requires Suffix(rest, b)
    ensures Used(b, rest) + (rest + tail) == b + tail
  {
    assert b == Used(b, rest) + rest;
  }

  lemma {:induction false} IntGrows(width: nat, top: septet, b: bytes, tail: bytes)
    requires !DecInt(width, top, b).IntEnd?
    ensures var r := DecInt(width, top, b); DecInt(width, top, b + tail) == if r.IntBad? then r else IntGot(r.n, r.rest + tail)
  {
    if width > 0 {
      assert (b + tail)[0] == b[0] && (b + tail)[1..] == b[1..] + tail;
      if b[0] >= 0x80 {
        IntGrows(width - 1, top, b[1..], tail);
      }
    }
  }

  /** What is rejected stays rejected, whatever follows. */
  lemma {:induction false} BadStays(s: Shape, b: bytes, tail: bytes)
    requires Dec(s, b) == Bad
    ensures Dec(s, b + tail) == Bad
    decreases s, 2, 0
  {
    match s
    case SInt(width, top) => IntGrows(width, top, b, tail);
    case SRaw(size) =>
    case SBlob => IntGrows(10, 1, b, tail);
    case SStruct(fields) => BadFieldsStay(fields, b, tail);
    case SSum(arms) => BadSumStays(arms, b, tail);
    case SOpt(f) =>
      assert (b + tail)[0] == b[0] && (b + tail)[1..] == b[1..] + tail;
      if b[0] == 1 {
        BadStays(f, b[1..], tail);
      }
    case SList(f) => BadListStays(f, b, tail);
  }

  lemma {:induction false} BadSumStays(arms: seq<Shape>, b: bytes, tail: bytes)
    requires Dec(SSum(arms), b) == Bad
    ensures Dec(SSum(arms), b + tail) == Bad
    decreases SSum(arms), 0, 0
  {
    IntGrows(5, 15, b, tail);
    var tag := DecTag(b);
    if tag.IntGot? && tag.n < |arms| {
      BadStays(arms[tag.n], tag.rest, tail);
    }
  }

  lemma {:induction false} BadListStays(f: Shape, b: bytes, tail: bytes)
    requires Dec(SList(f), b) == Bad
    ensures Dec(SList(f), b + tail) == Bad
    decreases SList(f), 0, 0
  {
    IntGrows(10, 1, b, tail);
    var n := DecLen(b);
    if n.IntGot? {
      BadAllStays(f, n.n, n.rest, tail);
    }
  }

  lemma {:induction false} BadFieldsStay(fields: seq<Shape>, b: bytes, tail: bytes)
    requires DecFields(fields, b).ListBad?
    ensures DecFields(fields, b + tail).ListBad?
    decreases fields, 1, 0
  {
    if Dec(fields[0], b).Got? {
      GotGrows(fields[0], b, tail);
      BadFieldsStay(fields[1..], Dec(fields[0], b).rest, tail);
    } else {
      BadStays(fields[0], b, tail);
    }
  }

  lemma {:induction false} BadAllStays(f: Shape, n: nat, b: bytes, tail: bytes)
    requires DecAll(f, n, b).ListBad?
    ensures DecAll(f, n, b + tail).ListBad?
    decreases f, 3, n
  {
    if Dec(f, b).Got? {
      GotGrows(f, b, tail);
      BadAllStays(f, n - 1, Dec(f, b).rest, tail);
    } else {
      BadStays(f, b, tail);
    }
  }

  /** Cut anywhere before where its read stopped, a value reads as ended: never as another value, never as malformed. */
  lemma CutEnds(s: Shape, b: bytes, n: nat)
    requires Dec(s, b).Got? && n < |b| - |Dec(s, b).rest|
    ensures Dec(s, b[..n]) == End
  {
    assert b[..n] + b[n..] == b;
    match Dec(s, b[..n])
    case Bad => BadStays(s, b[..n], b[n..]);
    case Got(_, _) => GotGrows(s, b[..n], b[n..]);
    case End =>
  }

  /** Cut after where its read stopped, a value reads as before. */
  lemma CutLater(s: Shape, b: bytes, n: nat)
    requires Dec(s, b).Got? && |b| - |Dec(s, b).rest| <= n <= |b|
    ensures |Dec(s, b).rest| <= |b| && Dec(s, b[..n]) == Got(Dec(s, b).val, Dec(s, b).rest[..n - (|b| - |Dec(s, b).rest|)])
  {
    Local(s, b, []);
    var rest := Dec(s, b).rest;
    Local(s, b, rest[..n - (|b| - |rest|)]);
    CutRejoined(b, rest, n);
  }

  lemma CutRejoined(b: bytes, rest: bytes, n: nat)
    requires Suffix(rest, b) && |b| - |rest| <= n <= |b|
    ensures Used(b, rest) + rest[..n - (|b| - |rest|)] == b[..n]
  {
  }

  // ---- whole files ----

  lemma PartsOf(b: bytes)
    requires ReadParts(b).Ok?
    ensures Dec(SStruct(ENVELOPE), b).Got? && |b| - |Dec(SStruct(ENVELOPE), b).rest| == ReadParts(b).value.envelopeLen
  {
  }

  /** A readable file cut inside its envelope is refused as truncated. */
  lemma CutEnvelopeRefused(p: Profile, b: bytes, n: nat)
    requires Decode(p, b).Ok? && n < Decode(p, b).value.1
    ensures Decode(p, b[..n]) == Err(EnvelopeTruncated)
  {
    PartsOf(b);
    CutEnds(SStruct(ENVELOPE), b, n);
  }

  /** Cut after its envelope it is refused as malformed, and carried on it is refused for what follows. */
  lemma CutTailRefused(p: Profile, b: bytes, n: nat)
    requires Decode(p, b).Ok? && Decode(p, b).value.1 <= n < |b|
    ensures Decode(p, b[..n]) == Err(Codec)
  {
    PartsOf(b);
    CutPartsRefused(b, n);
    DecodeFails(p, b[..n], Codec);
  }

  lemma DecodeFails(p: Profile, b: bytes, e: Error)
    requires ReadParts(b) == Err(e)
    ensures Decode(p, b) == Err(e)
  {
  }

  lemma CutPartsRefused(b: bytes, n: nat)
    requires ReadParts(b).Ok? && ReadParts(b).value.envelopeLen <= n < |b|
    ensures ReadParts(b[..n]) == Err(Codec)
  {
    TailOf(b);
    var r := Dec(SStruct(ENVELOPE), b);
    var len := |b| - |r.rest|;
    CutLater(SStruct(ENVELOPE), b, n);
    TailOf(b[..n]);
    CutParts(r.val, len, r.rest, n - len);
  }

  lemma CutParts(envelope: Val, len: nat, tail: bytes, n: nat)
    requires ReadTail(envelope, len, tail).Ok? && n < |tail|
    ensures ReadTail(envelope, len, tail[..n]) == Err(Codec)
  {
    var f := [SStruct(COMPILER_SIGNATURE), SList(ATTESTATION), METADATA];
    TailIsStruct(tail);
    CutEnds(SStruct(f), tail, n);
    TailFails(envelope, len, tail[..n]);
  }

  lemma TailIsStruct(tail: bytes)
    requires exists envelope, len :: ReadTail(envelope, len, tail).Ok?
    ensures var r := Dec(SStruct([SStruct(COMPILER_SIGNATURE), SList(ATTESTATION), METADATA]), tail); r.Got? && r.rest == []
  {
    var f := [SStruct(COMPILER_SIGNATURE), SList(ATTESTATION), METADATA];
    var b := Dec(f[0], tail).rest;
    var c := Dec(f[1], b).rest;
    ThreeFields(f, tail, b, c, []);
  }

  lemma ThreeFields(f: seq<Shape>, b0: bytes, b1: bytes, b2: bytes, b3: bytes)
    requires |f| == 3 && Dec(f[0], b0).Got? && Dec(f[0], b0).rest == b1 && Dec(f[1], b1).Got? && Dec(f[1], b1).rest == b2
    requires Dec(f[2], b2).Got? && Dec(f[2], b2).rest == b3
    ensures Dec(SStruct(f), b0).Got? && Dec(SStruct(f), b0).rest == b3
  {
    var f1, f2 := f[1..], f[2..];
    assert f1[1..] == f2 && f2[1..] == [];
    FieldStep(f2, b2, Dec(f[2], b2).val, b3, [], b3);
    FieldStep(f1, b1, Dec(f[1], b1).val, b2, [Dec(f[2], b2).val], b3);
    FieldStep(f, b0, Dec(f[0], b0).val, b1, [Dec(f[1], b1).val] + [Dec(f[2], b2).val], b3);
  }

  lemma TailFails(envelope: Val, len: nat, tail: bytes)
    requires Dec(SStruct([SStruct(COMPILER_SIGNATURE), SList(ATTESTATION), METADATA]), tail) == End
    ensures ReadTail(envelope, len, tail) == Err(Codec)
  {
    var f := [SStruct(COMPILER_SIGNATURE), SList(ATTESTATION), METADATA];
    if Dec(f[0], tail).Got? {
      var b := Dec(f[0], tail).rest;
      if Dec(f[1], b).Got? && Dec(f[2], Dec(f[1], b).rest).Got? {
        var c := Dec(f[1], b).rest;
        ThreeFields(f, tail, b, c, Dec(f[2], c).rest);
      }
    }
  }

  /** Bytes after a readable file are never overlooked. */
  lemma CarriedOnRefused(p: Profile, b: bytes, more: bytes)
    requires Decode(p, b).Ok? && more != []
    ensures Decode(p, b + more) == Err(TrailingBytes)
  {
    TailOf(b);
    GotGrows(SStruct(ENVELOPE), b, more);
    var envelope := Dec(SStruct(ENVELOPE), b);
    TailGrows(envelope.val, |b| - |envelope.rest|, envelope.rest, more);
    TailOf(b + more);
    DecodeFails(p, b + more, TrailingBytes);
  }

  lemma TailGrows(envelope: Val, len: nat, tail: bytes, more: bytes)
    requires ReadTail(envelope, len, tail).Ok? && more != []
    ensures ReadTail(envelope, len, tail + more) == Err(TrailingBytes)
  {
    var b := Dec(SStruct(COMPILER_SIGNATURE), tail).rest;
    var c := Dec(SList(ATTESTATION), b).rest;
    GotGrows(SStruct(COMPILER_SIGNATURE), tail, more);
    GotGrows(SList(ATTESTATION), b, more);
    GotGrows(METADATA, c, more);
  }

  /** A file whose kind is not one of the five is refused as malformed, whatever follows. */
  lemma UnknownKindRefused(p: Profile, b: bytes)
    requires b != [] && 5 <= b[0] < 0x80
    ensures Decode(p, b) == Err(Codec)
  {
    assert DecTag(b) == IntGot(b[0], b[1..]);
    assert Dec(KIND, b) == Bad;
    FirstFieldBad(MANIFEST, b);
    FirstFieldBad(ENVELOPE, b);
    DecodeFails(p, b, Codec);
  }

  lemma FirstFieldBad(fields: seq<Shape>, b: bytes)
    requires fields != [] && Dec(fields[0], b) == Bad
    ensures Dec(SStruct(fields), b) == Bad
  {
  }
}
