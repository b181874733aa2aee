/**
 The wire codec: a non-self-describing, unframed encoding of records in declaration order.

 A `Shape` is what a reader knows statically about a type, a `Val` is a value of that type. A struct adds
 no bytes of its own, so a record minus its last field is a literal byte prefix of the record: every
 "payload prefix" of the repository is an instance of `PrefixRecovered` below.

 Integers are base-128 varints. The reader accepts over-long forms, the writer never produces them.
 */
module Wire {
  type byte = x: int | 0 <= x < 0x100
  type bytes = seq<byte>
  type septet = x: int | 0 <= x < 0x80

  datatype Shape =
    | SInt(width: nat, top: septet)  // at most `width` bytes; a `width`-th byte may not exceed `top`
    | SRaw(size: nat)              // fixed-size array, no length
    | SBlob                        // length-prefixed bytes (String, Vec<u8>)
    | SStruct(fields: seq<Shape>)  // the fields in order, nothing else; [] is the unit type
    | SSum(arms: seq<Shape>)       // a 32-bit discriminant, then the arm
    | SOpt(some: Shape)            // presence byte
    | SList(elem: Shape)

  datatype Val =
    | VInt(n: nat)
    | VRaw(raw: bytes)
    | VBlob(blob: bytes)
    | VStruct(vals: seq<Val>)
    | VTag(tag: nat, arm: Val)
    | VNone
    | VSome(some: Val)
    | VList(items: seq<Val>)

  /** A read either runs out of bytes, meets bytes it must reject, or yields a value and the unread rest. */
  datatype Read = End | Bad | Got(val: Val, rest: bytes)

  datatype ReadInt = IntEnd | IntBad | IntGot(n: nat, rest: bytes)

  datatype ReadList = ListEnd | ListBad | ListGot(items: seq<Val>, rest: bytes)

  const U16 := SInt(3, 3)
  const U32 := SInt(5, 15)
  const U64 := SInt(10, 1)

  const LEN_LIMIT: nat := 0x1_0000_0000_0000_0000
  const TAG_LIMIT: nat := 0x1_0000_0000

  // ---- varints ----

  function Limit(width: nat, top: septet): nat {
    if width == 0 then 0 else if width == 1 then top + 1 else 0x80 * Limit(width - 1, top)
  }

  function EncInt(n: nat): bytes {
    if n < 0x80 then [n] else [0x80 + n % 0x80] + EncInt(n / 0x80)
  }

  function DecInt(width: nat, top: septet, b: bytes): ReadInt {
    if width == 0 then IntBad
    else if b == [] then IntEnd
    else if b[0] < 0x80 then
      if width == 1 && b[0] > top then IntBad else IntGot(b[0], b[1..])
    else
      match DecInt(width - 1, top, b[1..])
      case IntGot(n, rest) => IntGot(b[0] - 0x80 + 0x80 * n, rest)
      case other => other
  }

  lemma {:induction false} IntRoundTrip(width: nat, top: septet, n: nat, rest: bytes)
    requires n < Limit(width, top)
    ensures DecInt(width, top, EncInt(n) + rest) == IntGot(n, rest)
  {
    if n < 0x80 {
      assert ([n] + rest)[1..] == rest;
    } else {
      var head: byte := 0x80 + n % 0x80;
      IntRoundTrip(width - 1, top, n / 0x80, rest);
      assert EncInt(n) + rest == [head] + (EncInt(n / 0x80) + rest);
    }
  }

  /** What was read is a suffix of the input, and the bytes before it determine the read on their own. */
  lemma {:induction false} IntLocal(width: nat, top: septet, b: bytes, tail: bytes)
    requires DecInt(width, top, b).IntGot?
    ensures var rest := DecInt(width, top, b).rest;
            |rest| < |b| && rest == b[|b| - |rest|..] &&
            DecInt(width, top, b[..|b| - |rest|] + tail) == DecInt(width, top, b).(rest := tail)
  {
    var rest := DecInt(width, top, b).rest;
    if b[0] < 0x80 {
      assert b[..1] + tail == [b[0]] + tail;
    } else {
      IntLocal(width - 1, top, b[1..], tail);
      var used := b[1..][..|b| - 1 - |rest|];
      assert b[..|b| - |rest|] + tail == [b[0]] + (used + tail);
    }
  }

  /** A length is a 64-bit integer. */
  function DecLen(b: bytes): ReadInt {
    DecInt(10, 1, b)
  }

  lemma LenRoundTrip(n: nat, rest: bytes)
    requires n < LEN_LIMIT
    ensures DecLen(EncInt(n) + rest) == IntGot(n, rest)
  {
    LenLimit();
    IntRoundTrip(10, 1, n, rest);
  }

  lemma LenLimit()
    ensures Limit(10, 1) == LEN_LIMIT
  {
    calc {
      Limit(10, 1);
      0x80 * 0x80 * Limit(8, 1);
      0x80 * 0x80 * 0x80 * 0x80 * Limit(6, 1);
      0x80 * 0x80 * 0x80 * 0x80 * 0x80 * 0x80 * Limit(4, 1);
      0x80 * 0x80 * 0x80 * 0x80 * 0x80 * 0x80 * 0x80 * 0x80 * Limit(2, 1);
      LEN_LIMIT;
    }
  }

  /** A discriminant is a 32-bit integer. */
  function DecTag(b: bytes): ReadInt {
    DecInt(5, 15, b)
  }

  lemma TagLimit()
    ensures Limit(5, 15) == TAG_LIMIT
  {
    calc {
      Limit(5, 15);
      0x80 * 0x80 * Limit(3, 15);
      TAG_LIMIT;
    }
  }

  lemma LenLocal(b: bytes, tail: bytes)
    requires DecLen(b).IntGot?
    ensures Suffix(DecLen(b).rest, b)
    ensures DecLen(Used(b, DecLen(b).rest) + tail) == IntGot(DecLen(b).n, tail)
  {
    IntLocal(10, 1, b, tail);
  }

  ghost predicate Suffix(rest: bytes, b: bytes) {
    |rest| <= |b| && rest == b[|b| - |rest|..]
  }

  /** The bytes of `b` a read consumed when it left `rest`. */
  function Used(b: bytes, rest: bytes): bytes
    requires |rest| <= |b|
  {
    b[..|b| - |rest|]
  }

  lemma Assoc(a: bytes, b: bytes, c: bytes)
    ensures (a + b) + c == a + (b + c)
  {
  }

  /** Cutting a buffer twice, at the two lengths its rests have left, is cutting it once. */
  lemma Cuts(b: bytes, mid: bytes, rest: bytes, tail: bytes)
    requires Suffix(mid, b) && Suffix(rest, mid)
    ensures Suffix(rest, b)
    ensures Used(b, rest) + tail == Used(b, mid) + (Used(mid, rest) + tail)
  {
  }

  lemma {:induction false} IntFits(width: nat, top: septet, b: bytes)
    requires DecInt(width, top, b).IntGot?
    ensures DecInt(width, top, b).n < Limit(width, top)
  {
    if b[0] >= 0x80 {
      IntFits(width - 1, top, b[1..]);
    } else if width > 1 {
      LimitAtLeast(width, top);
    }
  }

  lemma {:induction false} LimitAtLeast(width: nat, top: septet)
    requires width > 1
    ensures Limit(width, top) >= 0x80
  {
    if width > 2 {
      LimitAtLeast(width - 1, top);
    }
  }

  lemma LenFits(b: bytes)
    requires DecLen(b).IntGot?
    ensures DecLen(b).n < LEN_LIMIT
  {
    IntFits(10, 1, b);
    LenLimit();
  }

  // ---- values ----

  ghost predicate Fits(s: Shape, v: Val) {
    match (s, v)
    case (SInt(width, top), VInt(n)) => n < Limit(width, top)
    case (SRaw(size), VRaw(raw)) => |raw| == size
    case (SBlob, VBlob(blob)) => |blob| < LEN_LIMIT
    case (SStruct(fields), VStruct(vals)) =>
      |fields| == |vals| && forall i :: 0 <= i < |fields| ==> Fits(fields[i], vals[i])
    case (SSum(arms), VTag(tag, arm)) => tag < TAG_LIMIT && tag < |arms| && Fits(arms[tag], arm)
    case (SOpt(_), VNone) => true
    case (SOpt(f), VSome(x)) => Fits(f, x)
    case (SList(f), VList(items)) =>
      |items| < LEN_LIMIT && forall i :: 0 <= i < |items| ==> Fits(f, items[i])
    case _ => false
  }

  ghost predicate FitsAll(fields: seq<Shape>, vals: seq<Val>) {
    |fields| == |vals| && forall i :: 0 <= i < |fields| ==> Fits(fields[i], vals[i])
  }

  function Enc(v: Val): bytes {
    match v
    case VInt(n) => EncInt(n)
    case VRaw(raw) => raw
    case VBlob(blob) => EncInt(|blob|) + blob
    case VStruct(vals) => EncAll(vals)
    case VTag(tag, arm) => EncInt(tag) + Enc(arm)
    case VNone => [0]
    case VSome(x) => [1] + Enc(x)
    case VList(items) => EncInt(|items|) + EncAll(items)
  }

  function EncAll(items: seq<Val>): bytes {
    if items == [] then [] else Enc(items[0]) + EncAll(items[1..])
  }

  function Dec(s: Shape, b: bytes): Read
    decreases s, 0, 0
  {
    match s
    case SInt(width, top) =>
      (match DecInt(width, top, b)
       case IntEnd => End
       case IntBad => Bad
       case IntGot(n, rest) => Got(VInt(n), rest))
    case SRaw(size) => if |b| < size then End else Got(VRaw(b[..size]), b[size..])
    case SBlob =>
      (match DecLen(b)
       case IntEnd => End
       case IntBad => Bad
       case IntGot(n, rest) => if |rest| < n then End else Got(VBlob(rest[..n]), rest[n..]))
    case SStruct(fields) =>
      (match DecFields(fields, b)
       case ListEnd => End
       case ListBad => Bad
       case ListGot(vals, rest) => Got(VStruct(vals), rest))
    case SSum(arms) =>
      (match DecTag(b)
       case IntEnd => End
       case IntBad => Bad
       case IntGot(tag, rest) =>
         if tag >= |arms| then Bad
         else
           (match Dec(arms[tag], rest)
            case Got(x, rest) => Got(VTag(tag, x), rest)
            case fail => fail))
    case SOpt(f) =>
      if b == [] then End
      else if b[0] == 0 then Got(VNone, b[1..])
      else if b[0] > 1 then Bad
      else
        (match Dec(f, b[1..])
         case Got(x, rest) => Got(VSome(x), rest)
         case fail => fail)
    case SList(f) =>
      (match DecLen(b)
       case IntEnd => End
       case IntBad => Bad
       case IntGot(n, rest) =>
         (match DecAll(f, n, rest)
          case ListEnd => End
          case ListBad => Bad
          case ListGot(items, rest) => Got(VList(items), rest)))
  }

  function DecAll(f: Shape, n: nat, b: bytes): ReadList
    decreases f, 1, n
  {
    if n == 0 then ListGot([], b)
    else
      match Dec(f, b)
      case End => ListEnd
      case Bad => ListBad
      case Got(x, rest) =>
        match DecAll(f, n - 1, rest)
        case ListGot(items, rest) => ListGot([x] + items, rest)
        case fail => fail
  }

  function DecFields(fields: seq<Shape>, b: bytes): ReadList
    decreases fields, 1, 0
  {
    if fields == [] then ListGot([], b)
    else
      match Dec(fields[0], b)
      case End => ListEnd
      case Bad => ListBad
      case Got(x, rest) =>
        match DecFields(fields[1..], rest)
        case ListGot(vals, rest) => ListGot([x] + vals, rest)
        case fail => fail
  }

  /** Every value of a shape, followed by anything, reads back exactly, leaving exactly what followed. */
  lemma {:induction false} RoundTrip(s: Shape, v: Val, rest: bytes)
    requires Fits(s, v)
    ensures Dec(s, Enc(v) + rest) == Got(v, rest)
    decreases s, 0, 0
  {
    match s
    case SInt(width, top) => IntRoundTrip(width, top, v.n, rest);
    case SRaw(size) =>
    case SBlob =>
      LenRoundTrip(|v.blob|, v.blob + rest);
      Assoc(EncInt(|v.blob|), v.blob, rest);
    case SStruct(fields) => RoundTripFields(fields, v.vals, rest);
    case SSum(arms) =>
      TagLimit();
      IntRoundTrip(5, 15, v.tag, Enc(v.arm) + rest);
      RoundTrip(arms[v.tag], v.arm, rest);
      Assoc(EncInt(v.tag), Enc(v.arm), rest);
    case SOpt(f) => RoundTripOpt(f, v, rest);
    case SList(f) =>
      LenRoundTrip(|v.items|, EncAll(v.items) + rest);
      Assoc(EncInt(|v.items|), EncAll(v.items), rest);
      RoundTripAll(f, v.items, rest);
  }

  lemma {:induction false} RoundTripOpt(f: Shape, v: Val, rest: bytes)
    requires Fits(SOpt(f), v)
    ensures Dec(SOpt(f), Enc(v) + rest) == Got(v, rest)
    decreases f, 2, 0
  {
    if v.VSome? {
      RoundTrip(f, v.some, rest);
      Assoc([1], Enc(v.some), rest);
    }
  }

  lemma {:induction false} RoundTripAll(f: Shape, items: seq<Val>, rest: bytes)
    requires forall i :: 0 <= i < |items| ==> Fits(f, items[i])
    ensures DecAll(f, |items|, EncAll(items) + rest) == ListGot(items, rest)
    decreases f, 1, |items|
  {
    if items == [] {
      assert [] + rest == rest;
    } else {
      RoundTrip(f, items[0], EncAll(items[1..]) + rest);
      RoundTripAll(f, items[1..], rest);
      Assoc(Enc(items[0]), EncAll(items[1..]), rest);
      assert [items[0]] + items[1..] == items;
    }
  }

  lemma {:induction false} RoundTripFields(fields: seq<Shape>, vals: seq<Val>, rest: bytes)
    requires FitsAll(fields, vals)
    ensures DecFields(fields, EncAll(vals) + rest) == ListGot(vals, rest)
    decreases fields, 1, 0
  {
    if vals == [] {
      assert [] + rest == rest;
    } else {
      RoundTrip(fields[0], vals[0], EncAll(vals[1..]) + rest);
      RoundTripFields(fields[1..], vals[1..], rest);
      Assoc(Enc(vals[0]), EncAll(vals[1..]), rest);
      assert [vals[0]] + vals[1..] == vals;
    }
  }

  /** Reading a struct reads its first field, then the rest of them as a struct. */
  lemma FirstField(fields: seq<Shape>, b: bytes)
    requires fields != [] && Dec(SStruct(fields), b).Got?
    ensures var read := Dec(SStruct(fields), b); var first := Dec(fields[0], b);
            first.Got? && read.val.VStruct? && read.val.vals != [] && read.val.vals[0] == first.val &&
            Dec(SStruct(fields[1..]), first.rest) == Got(VStruct(read.val.vals[1..]), read.rest)
  {
    var first := Dec(fields[0], b);
    var rest := DecFields(fields[1..], first.rest);
    assert ([first.val] + rest.items)[1..] == rest.items;
  }

  lemma SecondField(fields: seq<Shape>, b: bytes)
    requires |fields| >= 2 && Dec(SStruct(fields), b).Got?
    ensures var read := Dec(SStruct(fields), b); var first := Dec(fields[0], b);
            first.Got? && Dec(fields[1], first.rest).Got? && read.val.VStruct? && |read.val.vals| >= 2 &&
            read.val.vals[1] == Dec(fields[1], first.rest).val
  {
    FirstField(fields, b);
    FirstField(fields[1..], Dec(fields[0], b).rest);
  }

  /** Two values of one shape with the same bytes are the same value. */
  lemma EncInjective(s: Shape, v: Val, w: Val)
    requires Fits(s, v) && Fits(s, w) && Enc(v) == Enc(w)
    ensures v == w
  {
    RoundTrip(s, v, []);
    RoundTrip(s, w, []);
  }

  /** Reads are self-delimiting: the consumed bytes alone fix the value, whatever follows them. */
  lemma {:induction false} Local(s: Shape, b: bytes, tail: bytes)
    requires Dec(s, b).Got?
    ensures Suffix(Dec(s, b).rest, b)
    ensures Dec(s, Used(b, Dec(s, b).rest) + tail) == Got(Dec(s, b).val, tail)
    decreases s, 1, 0
  {
    match s
    case SInt(width, top) => IntLocal(width, top, b, tail);
    case SRaw(size) =>
    case SBlob => LocalBlob(b, tail);
    case SStruct(fields) => LocalFields(fields, b, tail);
    case SSum(arms) => LocalSum(arms, b, tail);
    case SOpt(f) =>
      if b[0] == 1 {
        Local(f, b[1..], tail);
        LocalPresent(b, Dec(s, b).rest, tail);
      }
    case SList(f) => LocalList(f, b, tail);
  }

  lemma {:induction false} LocalSum(arms: seq<Shape>, b: bytes, tail: bytes)
    requires Dec(SSum(arms), b).Got?
    ensures var r := Dec(SSum(arms), b);
            Suffix(r.rest, b) && Dec(SSum(arms), Used(b, r.rest) + tail) == Got(r.val, tail)
    decreases SSum(arms), 0, 0
  {
    var tag := DecTag(b);
    var rest := Dec(SSum(arms), b).rest;
    Local(arms[tag.n], tag.rest, tail);
    IntLocal(5, 15, b, Used(tag.rest, rest) + tail);
    Cuts(b, tag.rest, rest, tail);
  }

  lemma LocalBlob(b: bytes, tail: bytes)
    requires Dec(SBlob, b).Got?
    ensures var r := Dec(SBlob, b);
            Suffix(r.rest, b) && Dec(SBlob, Used(b, r.rest) + tail) == Got(r.val, tail)
  {
    var r := DecLen(b);
    var rest := r.rest[r.n..];
    var body := Used(r.rest, rest);
    LenLocal(b, body + tail);
    Cuts(b, r.rest, rest, tail);
    SplitAt(body, tail);
    BlobStep(Used(b, rest) + tail, r.n, body, tail);
  }

  lemma SplitAt(a: bytes, b: bytes)
    ensures (a + b)[..|a|] == a && (a + b)[|a|..] == b
  {
  }

  lemma BlobStep(b: bytes, n: nat, body: bytes, tail: bytes)
    requires |body| == n && DecLen(b) == IntGot(n, body + tail)
    ensures Dec(SBlob, b) == Got(VBlob(body), tail)
  {
    SplitAt(body, tail);
  }

  lemma LocalPresent(b: bytes, rest: bytes, tail: bytes)
    requires b != [] && Suffix(rest, b[1..])
    ensures Suffix(rest, b)
    ensures Used(b, rest) + tail == [b[0]] + (Used(b[1..], rest) + tail)
  {
    Cuts(b, b[1..], rest, tail);
    assert Used(b, b[1..]) == [b[0]];
  }

  lemma {:induction false} LocalList(f: Shape, b: bytes, tail: bytes)
    requires Dec(SList(f), b).Got?
    ensures var r := Dec(SList(f), b);
            Suffix(r.rest, b) && Dec(SList(f), Used(b, r.rest) + tail) == Got(r.val, tail)
    decreases SList(f), 0, 0
  {
    var r := DecLen(b);
    var all := DecAll(f, r.n, r.rest);
    LocalAll(f, r.n, r.rest, tail);
    LenLocal(b, Used(r.rest, all.rest) + tail);
    Cuts(b, r.rest, all.rest, tail);
  }

  lemma {:induction false} LocalFields(fields: seq<Shape>, b: bytes, tail: bytes)
    requires DecFields(fields, b).ListGot?
    ensures var r := DecFields(fields, b);
            Suffix(r.rest, b) && DecFields(fields, Used(b, r.rest) + tail) == ListGot(r.items, tail)
    decreases fields, 2, 0
  {
    if fields == [] {
      assert b[..0] + tail == tail;
    } else {
      LocalFields(fields[1..], Dec(fields[0], b).rest, tail);
      LocalField(fields, b, tail);
    }
  }

  lemma {:induction false} LocalField(fields: seq<Shape>, b: bytes, tail: bytes)
    requires fields != [] && DecFields(fields, b).ListGot?
    requires var mid := Dec(fields[0], b).rest; var r := DecFields(fields[1..], mid);
             Suffix(r.rest, mid) && DecFields(fields[1..], Used(mid, r.rest) + tail) == ListGot(r.items, tail)
    ensures var r := DecFields(fields, b);
            Suffix(r.rest, b) && DecFields(fields, Used(b, r.rest) + tail) == ListGot(r.items, tail)
    decreases fields, 1, 0
  {
    var first := Dec(fields[0], b);
    var more := DecFields(fields[1..], first.rest);
    var mid := Used(first.rest, more.rest) + tail;
    Local(fields[0], b, mid);
    Cuts(b, first.rest, more.rest, tail);
    FieldStep(fields, Used(b, more.rest) + tail, first.val, mid, more.items, tail);
  }

  lemma FieldStep(fields: seq<Shape>, b: bytes, x: Val, mid: bytes, vals: seq<Val>, rest: bytes)
    requires fields != [] && Dec(fields[0], b) == Got(x, mid) && DecFields(fields[1..], mid) == ListGot(vals, rest)
    ensures DecFields(fields, b) == ListGot([x] + vals, rest)
  {
  }

  lemma {:induction false} LocalAll(f: Shape, n: nat, b: bytes, tail: bytes)
    requires DecAll(f, n, b).ListGot?
    ensures var r := DecAll(f, n, b);
            Suffix(r.rest, b) && DecAll(f, n, Used(b, r.rest) + tail) == ListGot(r.items, tail)
    decreases f, 3, n
  {
    if n == 0 {
      assert b[..0] + tail == tail;
    } else {
      LocalAll(f, n - 1, Dec(f, b).rest, tail);
      LocalMore(f, n, b, tail);
    }
  }

  lemma {:induction false} LocalMore(f: Shape, n: nat, b: bytes, tail: bytes)
    requires n > 0 && DecAll(f, n, b).ListGot?
    requires var mid := Dec(f, b).rest; var r := DecAll(f, n - 1, mid);
             Suffix(r.rest, mid) && DecAll(f, n - 1, Used(mid, r.rest) + tail) == ListGot(r.items, tail)
    ensures var r := DecAll(f, n, b);
            Suffix(r.rest, b) && DecAll(f, n, Used(b, r.rest) + tail) == ListGot(r.items, tail)
    decreases f, 2, 0
  {
    var first := Dec(f, b);
    var more := DecAll(f, n - 1, first.rest);
    var mid := Used(first.rest, more.rest) + tail;
    Local(f, b, mid);
    Cuts(b, first.rest, more.rest, tail);
    ListStep(f, n, Used(b, more.rest) + tail, first.val, mid, more.items, tail);
  }

  lemma ListStep(f: Shape, n: nat, b: bytes, x: Val, mid: bytes, items: seq<Val>, rest: bytes)
    requires n > 0 && Dec(f, b) == Got(x, mid) && DecAll(f, n - 1, mid) == ListGot(items, rest)
    ensures DecAll(f, n, b) == ListGot([x] + items, rest)
  {
  }

  /** Whatever a read yields is a value of the shape it was read at. */
  lemma {:induction false} DecFits(s: Shape, b: bytes)
    requires Dec(s, b).Got?
    ensures Fits(s, Dec(s, b).val)
    decreases s, 0, 0
  {
    match s
    case SInt(width, top) => IntFits(width, top, b);
    case SRaw(size) =>
    case SBlob => LenFits(b);
    case SStruct(fields) => DecFieldsFits(fields, b);
    case SSum(arms) =>
      IntFits(5, 15, b);
      TagLimit();
      DecFits(arms[DecTag(b).n], DecTag(b).rest);
    case SOpt(f) => if b[0] == 1 { DecFits(f, b[1..]); }
    case SList(f) =>
      LenFits(b);
      DecAllFits(f, DecLen(b).n, DecLen(b).rest);
  }

  lemma {:induction false} DecFieldsFits(fields: seq<Shape>, b: bytes)
    requires DecFields(fields, b).ListGot?
    ensures FitsAll(fields, DecFields(fields, b).items)
    decreases fields, 1, 0
  {
    if fields != [] {
      DecFits(fields[0], b);
      DecFieldsFits(fields[1..], Dec(fields[0], b).rest);
    }
  }

  lemma {:induction false} DecAllFits(f: Shape, n: nat, b: bytes)
    requires DecAll(f, n, b).ListGot?
    ensures |DecAll(f, n, b).items| == n && forall x :: x in DecAll(f, n, b).items ==> Fits(f, x)
    decreases f, 1, n
  {
    if n > 0 {
      DecFits(f, b);
      DecAllFits(f, n - 1, Dec(f, b).rest);
    }
  }

  lemma {:induction false} EncAllConcat(a: seq<Val>, b: seq<Val>)
    ensures EncAll(a + b) == EncAll(a) + EncAll(b)
  {
    if a == [] {
      assert a + b == b;
    } else {
      EncAllConcat(a[1..], b);
      assert (a + b)[1..] == a[1..] + b;
      Assoc(Enc(a[0]), EncAll(a[1..]), EncAll(b));
    }
  }

  /**
   The prefix-recovery technique: reading a record's leading fields out of the whole record's bytes, and
   cutting where that read stopped, gives exactly the encoding of the leading fields.
   */
  lemma PrefixRecovered(fields: seq<Shape>, lead: seq<Val>, last: seq<Val>)
    requires FitsAll(fields, lead)
    ensures var whole := Enc(VStruct(lead + last)); var read := Dec(SStruct(fields), whole);
            read.Got? && |read.rest| <= |whole| && Used(whole, read.rest) == EncAll(lead)
  {
    EncAllConcat(lead, last);
    RoundTripFields(fields, lead, EncAll(last));
  }

  // ---- when reading and writing again gives the bytes back ----

  /** The bytes before `rest` are a varint of least length: one byte, or a last byte that is not zero. */
  predicate Least(b: bytes, rest: bytes) {
    |rest| < |b| && (|rest| + 1 == |b| || b[|b| - |rest| - 1] != 0)
  }

  /** Every varint met in reading this shape is of least length. */
  predicate Tight(s: Shape, b: bytes)
    requires Dec(s, b).Got?
    decreases s, 0, 0
  {
    match s
    case SInt(width, top) => Least(b, DecInt(width, top, b).rest)
    case SRaw(_) => true
    case SBlob => Least(b, DecLen(b).rest)
    case SStruct(fields) => TightFields(fields, b)
    case SSum(arms) => Least(b, DecTag(b).rest) && Tight(arms[DecTag(b).n], DecTag(b).rest)
    case SOpt(f) => b[0] == 1 ==> Tight(f, b[1..])
    case SList(f) => Least(b, DecLen(b).rest) && TightAll(f, DecLen(b).n, DecLen(b).rest)
  }

  predicate TightFields(fields: seq<Shape>, b: bytes)
    requires DecFields(fields, b).ListGot?
    decreases fields, 1, 0
  {
    fields != [] ==> Tight(fields[0], b) && TightFields(fields[1..], Dec(fields[0], b).rest)
  }

  predicate TightAll(f: Shape, n: nat, b: bytes)
    requires DecAll(f, n, b).ListGot?
    decreases f, 1, n
  {
    n > 0 ==> Tight(f, b) && TightAll(f, n - 1, Dec(f, b).rest)
  }

  /** The bytes `b` opens with, up to `rest`, against what the writer makes of the value read from them. */
  ghost predicate Rewrites(b: bytes, rest: bytes, written: bytes, tight: bool) {
    Suffix(rest, b) && |written| <= |b| - |rest| && (written == Used(b, rest) <==> tight)
  }

  /** The last byte is zero when the value is, and the only byte is the value. */
  ghost predicate EndsAs(b: bytes, rest: bytes, n: nat) {
    |rest| < |b| && (n == 0 ==> b[|b| - |rest| - 1] == 0) && (|rest| + 1 == |b| ==> n == b[0])
  }

  lemma {:induction false} IntRewrites(width: nat, top: septet, b: bytes)
    requires DecInt(width, top, b).IntGot?
    ensures var r := DecInt(width, top, b); Rewrites(b, r.rest, EncInt(r.n), Least(b, r.rest)) && EndsAs(b, r.rest, r.n)
  {
    if b[0] < 0x80 {
      assert b[..1] == [b[0]];
    } else {
      IntRewrites(width - 1, top, b[1..]);
      var r := DecInt(width - 1, top, b[1..]);
      SeptetRewrites(b, r.rest, r.n);
    }
  }

  lemma SeptetRewrites(b: bytes, rest: bytes, n: nat)
    requires b != [] && b[0] >= 0x80
    requires Rewrites(b[1..], rest, EncInt(n), Least(b[1..], rest)) && EndsAs(b[1..], rest, n)
    ensures var m := b[0] - 0x80 + 0x80 * n; Rewrites(b, rest, EncInt(m), Least(b, rest)) && EndsAs(b, rest, m)
  {
    assert Used(b, rest) == [b[0]] + Used(b[1..], rest);
    var k := |b| - |rest| - 1;
    assert b[k] == b[1..][k - 1];
    if n > 0 {
      assert EncInt(b[0] - 0x80 + 0x80 * n) == [b[0]] + EncInt(n);
    }
  }

  /** Written back piece by piece, no piece grows, so the whole comes back only if each piece does. */
  lemma RewritesBoth(b: bytes, mid: bytes, rest: bytes, x: bytes, y: bytes, tightX: bool, tightY: bool)
    requires Rewrites(b, mid, x, tightX) && Rewrites(mid, rest, y, tightY)
    ensures Rewrites(b, rest, x + y, tightX && tightY)
  {
    var u, v := Used(b, mid), Used(mid, rest);
    assert Used(b, rest) == u + v;
    if x + y == u + v {
      assert |x| == |u|;
      SplitAt(x, y);
      SplitAt(u, v);
    }
  }

  lemma BlobRewrites(b: bytes)
    requires Dec(SBlob, b).Got?
    ensures Rewrites(b, Dec(SBlob, b).rest, Enc(Dec(SBlob, b).val), Tight(SBlob, b))
  {
    var len := DecLen(b);
    IntRewrites(10, 1, b);
    RewritesBoth(b, len.rest, len.rest[len.n..], EncInt(len.n), len.rest[..len.n], Least(b, len.rest), true);
  }

  lemma TaggedRewrites(b: bytes, x: Val, rest: bytes, tight: bool)
    requires DecTag(b).IntGot? && Rewrites(DecTag(b).rest, rest, Enc(x), tight)
    ensures Rewrites(b, rest, Enc(VTag(DecTag(b).n, x)), Least(b, DecTag(b).rest) && tight)
  {
    var tag := DecTag(b);
    IntRewrites(5, 15, b);
    RewritesBoth(b, tag.rest, rest, EncInt(tag.n), Enc(x), Least(b, tag.rest), tight);
  }

  lemma PresentRewrites(b: bytes, x: Val, rest: bytes, tight: bool)
    requires b != [] && b[0] == 1 && Rewrites(b[1..], rest, Enc(x), tight)
    ensures Rewrites(b, rest, Enc(VSome(x)), tight)
  {
    assert b[..1] == [1];
    RewritesBoth(b, b[1..], rest, [1], Enc(x), true, tight);
  }

  lemma ListRewrites(b: bytes, items: seq<Val>, rest: bytes, tight: bool)
    requires DecLen(b).IntGot? && |items| == DecLen(b).n && Rewrites(DecLen(b).rest, rest, EncAll(items), tight)
    ensures Rewrites(b, rest, Enc(VList(items)), Least(b, DecLen(b).rest) && tight)
  {
    var len := DecLen(b);
    IntRewrites(10, 1, b);
    RewritesBoth(b, len.rest, rest, EncInt(len.n), EncAll(items), Least(b, len.rest), tight);
  }

  lemma ConsRewrites(b: bytes, x: Val, mid: bytes, items: seq<Val>, rest: bytes, tightX: bool, tightItems: bool)
    requires Rewrites(b, mid, Enc(x), tightX) && Rewrites(mid, rest, EncAll(items), tightItems)
    ensures Rewrites(b, rest, EncAll([x] + items), tightX && tightItems)
  {
    RewritesBoth(b, mid, rest, Enc(x), EncAll(items), tightX, tightItems);
    EncAllCons(x, items);
  }

  /** A value read is written back to the bytes it was read from exactly when those were tight. */
  lemma {:induction false} TightRewrites(s: Shape, b: bytes)
    requires Dec(s, b).Got?
    ensures Rewrites(b, Dec(s, b).rest, Enc(Dec(s, b).val), Tight(s, b))
    decreases s, 1, 0
  {
    match s
    case SInt(width, top) => IntRewrites(width, top, b);
    case SRaw(size) =>
    case SBlob => BlobRewrites(b);
    case SStruct(fields) => TightRewritesFields(fields, b);
    case SSum(arms) => TightRewritesSum(arms, b);
    case SOpt(f) => TightRewritesOpt(f, b);
    case SList(f) => TightRewritesList(f, b);
  }

  lemma {:induction false} TightRewritesSum(arms: seq<Shape>, b: bytes)
    requires Dec(SSum(arms), b).Got?
    ensures Rewrites(b, Dec(SSum(arms), b).rest, Enc(Dec(SSum(arms), b).val), Tight(SSum(arms), b))
    decreases SSum(arms), 0, 0
  {
    var tag := DecTag(b);
    var arm := Dec(arms[tag.n], tag.rest);
    TightRewrites(arms[tag.n], tag.rest);
    TaggedRewrites(b, arm.val, arm.rest, Tight(arms[tag.n], tag.rest));
  }

  lemma {:induction false} TightRewritesOpt(f: Shape, b: bytes)
    requires Dec(SOpt(f), b).Got?
    ensures Rewrites(b, Dec(SOpt(f), b).rest, Enc(Dec(SOpt(f), b).val), Tight(SOpt(f), b))
    decreases SOpt(f), 0, 0
  {
    if b[0] == 1 {
      TightRewrites(f, b[1..]);
      PresentRewrites(b, Dec(f, b[1..]).val, Dec(f, b[1..]).rest, Tight(f, b[1..]));
    } else {
      assert b[..1] == [0];
    }
  }

  lemma {:induction false} TightRewritesList(f: Shape, b: bytes)
    requires Dec(SList(f), b).Got?
    ensures Rewrites(b, Dec(SList(f), b).rest, Enc(Dec(SList(f), b).val), Tight(SList(f), b))
    decreases SList(f), 0, 0
  {
    var len := DecLen(b);
    var all := DecAll(f, len.n, len.rest);
    DecAllFits(f, len.n, len.rest);
    TightRewritesAll(f, len.n, len.rest);
    ListRewrites(b, all.items, all.rest, TightAll(f, len.n, len.rest));
  }

  lemma {:induction false} TightRewritesFields(fields: seq<Shape>, b: bytes)
    requires DecFields(fields, b).ListGot?
    ensures Rewrites(b, DecFields(fields, b).rest, EncAll(DecFields(fields, b).items), TightFields(fields, b))
    decreases fields, 2, 0
  {
    if fields != [] {
      var first := Dec(fields[0], b);
      var more := DecFields(fields[1..], first.rest);
      TightRewrites(fields[0], b);
      TightRewritesFields(fields[1..], first.rest);
      ConsRewrites(b, first.val, first.rest, more.items, more.rest, Tight(fields[0], b), TightFields(fields[1..], first.rest));
    }
  }

  lemma AllStep(f: Shape, n: nat, b: bytes)
    requires n > 0 && DecAll(f, n, b).ListGot?
    ensures var first := Dec(f, b);
            first.Got? && DecAll(f, n - 1, first.rest).ListGot? &&
            var more := DecAll(f, n - 1, first.rest);
            DecAll(f, n, b) == ListGot([first.val] + more.items, more.rest) &&
            (TightAll(f, n, b) <==> Tight(f, b) && TightAll(f, n - 1, first.rest))
  {
  }

  lemma {:induction false} TightRewritesAll(f: Shape, n: nat, b: bytes)
    requires DecAll(f, n, b).ListGot?
    ensures Rewrites(b, DecAll(f, n, b).rest, EncAll(DecAll(f, n, b).items), TightAll(f, n, b))
    decreases f, 2, n
  {
    if n > 0 {
      var first := Dec(f, b);
      var more := DecAll(f, n - 1, first.rest);
      AllStep(f, n, b);
      TightRewrites(f, b);
      TightRewritesAll(f, n - 1, first.rest);
      ConsRewrites(b, first.val, first.rest, more.items, more.rest, Tight(f, b), TightAll(f, n - 1, first.rest));
    }
  }

  /** Reading and writing again gives the bytes back exactly when every varint among them was of least length. */
  lemma TightExactly(s: Shape, b: bytes)
    requires Dec(s, b).Got?
    ensures |Dec(s, b).rest| <= |b| && |Enc(Dec(s, b).val)| <= |Used(b, Dec(s, b).rest)|
    ensures Enc(Dec(s, b).val) == Used(b, Dec(s, b).rest) <==> Tight(s, b)
  {
    TightRewrites(s, b);
  }

  lemma EncAllCons(x: Val, items: seq<Val>)
    ensures EncAll([x] + items) == Enc(x) + EncAll(items)
  {
    assert ([x] + items)[1..] == items;
  }

  // ---- reading a struct's fields ----

  /** Field `i` of a struct value, with what its shape promises of it. */
  function At(fields: seq<Shape>, v: Val, i: nat): (x: Val)
    requires Fits(SStruct(fields), v) && i < |fields|
    ensures Fits(fields[i], x)
  {
    v.vals[i]
  }

  function Inner(f: Shape, v: Val): (x: Val)
    requires Fits(SOpt(f), v) && v.VSome?
    ensures Fits(f, x)
  {
    v.some
  }

  function Arm(arms: seq<Shape>, v: Val): (x: Val)
    requires Fits(SSum(arms), v)
    ensures v.tag < |arms| && Fits(arms[v.tag], x)
  {
    v.arm
  }

  function Element(f: Shape, v: Val, i: nat): (x: Val)
    requires Fits(SList(f), v) && i < |v.items|
    ensures Fits(f, x)
  {
    v.items[i]
  }
}
