/** The wire format byte by byte, and exactly which frames are accepted
    (crates/orbit-protocol/src/wire.rs lines 10-30 and 61-224). */
module WireLayout {
  import opened Bytes
  import opened Wire
  import opened Framing

  // ---- Where everything is ----

  /** The number in the little-endian field of `count` bytes at `at`. */
  function Number(f: Bytes, at: nat, count: nat): nat
    requires at + count <= |f|
  {
    Weighed(f[at..at + count])
  }

  lemma NumberIsField(f: Bytes, at: nat, count: nat)
    requires at + count <= |f|
    ensures Number(f, at, count) == Field(f, at, count)
  {
    GetIsWeighed(f[at..at + count]);
  }

  lemma NumberAt(pre: Bytes, n: nat, count: nat, post: Bytes, f: Bytes)
    requires n < Pow256(count) && f == pre + (PutLe(n, count) + post)
    ensures Number(f, |pre|, count) == n && f[|pre| + count..] == post
  {
    FieldAt(pre, n, count, post);
    NumberIsField(f, |pre|, count);
  }

  lemma HeadParts(f: Bytes, ty: Bytes, id: nat, body: Bytes)
    requires |ty| == 1 && id < Pow256(8) && 8 + |body| < Pow256(4)
    requires f == ty + PutLe(8 + |body|, 4) + (PutLe(id, 8) + body)
    ensures |f| == 13 + |body| && f[0] == ty[0] && Number(f, 1, 4) == 8 + |body| && Number(f, 5, 8) == id
    ensures f[13..] == body
  {
    LengthPart(f, ty, 8 + |body|, PutLe(id, 8) + body);
    NumberAt(ty + PutLe(8 + |body|, 4), id, 8, body, f);
  }

  lemma LengthPart(f: Bytes, ty: Bytes, n: nat, rest: Bytes)
    requires |ty| == 1 && n < Pow256(4) && f == ty + PutLe(n, 4) + rest
    ensures f[0] == ty[0] && Number(f, 1, 4) == n
  {
    Reassociate(ty, PutLe(n, 4), rest);
    NumberAt(ty, n, 4, rest, f);
  }

  lemma SessionFirst(m: Message)
    ensures Payload(m) == PutLe(m.sessionId, 8) + Body(m)
  {}

  /** The type byte of each message. */
  function Code(m: Message): bv8 {
    match m
    case Hello(_, _) => 1
    case Meta(_, _, _, _, _, _) => 2
    case Symbol(_, _, _) => 3
    case Done(_) => 4
    case Ready(_) => 5
    case Direct(_, _) => 6
  }

  /** Every frame: a type byte, four bytes of length, eight bytes of session. */
  lemma HeadLayout(m: Message)
    requires Typed(m) && WithinLimits(m)
    ensures var f := Encode(m);
            && |f| == 13 + |Body(m)| && f[0] == Code(m) && Number(f, 1, 4) == |f| - 5 && Number(f, 5, 8) == m.sessionId
            && f[13..] == Body(m)
  {
    SessionFirst(m);
    HeadParts(Encode(m), [ToByte(TypeOf(m))], m.sessionId, Body(m));
    FirstTypes(m);
  }

  lemma FirstTypes(m: Message)
    ensures ToByte(TypeOf(m)) == Code(m)
  {
    SameByte(ToByte(1), 1);
    SameByte(ToByte(2), 2);
    SameByte(ToByte(3), 3);
    SameByte(ToByte(4), 4);
    SameByte(ToByte(5), 5);
    SameByte(ToByte(6), 6);
  }

  /** What follows the session. */
  function Body(m: Message): Bytes {
    match m
    case Hello(_, role) => PutLe(role, 1)
    case Meta(_, filename, size, symbolSize, k, checksum) =>
      PutLe(|filename|, 2) + (filename + MetaFields(size, symbolSize, k, checksum))
    case Symbol(_, esi, data) => PutLe(esi, 4) + data
    case Done(_) => []
    case Ready(_) => []
    case Direct(_, addr) => PutLe(|addr|, 2) + addr
  }

  /** The fields of each message by offset behind the session. */
  lemma BodyLayout(m: Message)
    requires Typed(m) && WithinLimits(m)
    ensures var b := Body(m);
            match m
            case Hello(_, role) => |b| == 1 && Number(b, 0, 1) == role
            case Symbol(_, esi, data) => |b| == 4 + |data| && Number(b, 0, 4) == esi && b[4..] == data
            case Direct(_, addr) => |b| == 2 + |addr| && Number(b, 0, 2) == |addr| && b[2..] == addr
            case Meta(_, name, size, symbolSize, k, checksum) =>
              && |b| == 26 + |name| && Number(b, 0, 2) == |name| && b[2..2 + |name|] == name
              && Number(b, 2 + |name|, 8) == size && Number(b, 10 + |name|, 4) == symbolSize
              && Number(b, 14 + |name|, 4) == k && Number(b, 18 + |name|, 8) == checksum
            case _ => b == []
  {
    match m
    case Hello(_, role) => FrontNumber(role, 1, []);
    case Symbol(_, esi, data) => FrontNumber(esi, 4, data);
    case Direct(_, addr) => FrontNumber(|addr|, 2, addr);
    case Meta(_, name, size, symbolSize, k, checksum) => MetaLayout(name, size, symbolSize, k, checksum);
    case _ =>
  }

  lemma FrontNumber(n: nat, count: nat, post: Bytes)
    requires n < Pow256(count)
    ensures var f := PutLe(n, count) + post; Number(f, 0, count) == n && f[count..] == post
    ensures PutLe(n, count) + [] == PutLe(n, count)
  {
    assert [] + (PutLe(n, count) + post) == PutLe(n, count) + post;
    NumberAt([], n, count, post, PutLe(n, count) + post);
  }

  lemma MetaLayout(name: Bytes, size: nat, symbolSize: nat, k: nat, checksum: nat)
    requires |name| < Pow256(2)
    requires size < Pow256(8) && symbolSize < Pow256(4) && k < Pow256(4) && checksum < Pow256(8)
    ensures var b := PutLe(|name|, 2) + (name + MetaFields(size, symbolSize, k, checksum));
            && |b| == 26 + |name| && Number(b, 0, 2) == |name| && b[2..2 + |name|] == name
            && Number(b, 2 + |name|, 8) == size && Number(b, 10 + |name|, 4) == symbolSize
            && Number(b, 14 + |name|, 4) == k && Number(b, 18 + |name|, 8) == checksum
  {
    var head, t := PutLe(|name|, 2), MetaFields(size, symbolSize, k, checksum);
    var b := head + (name + t);
    FrontNumber(|name|, 2, name + t);
    MetaTail(size, symbolSize, k, checksum);
    Reassociate(head, name, t);
    NumbersBehind(head + name, t, b);
  }

  lemma NumbersBehind(pre: Bytes, t: Bytes, f: Bytes)
    requires f == pre + t && |t| == 24
    ensures Number(f, |pre|, 8) == Field(t, 0, 8) && Number(f, |pre| + 8, 4) == Field(t, 8, 4)
    ensures Number(f, |pre| + 12, 4) == Field(t, 12, 4) && Number(f, |pre| + 16, 8) == Field(t, 16, 8)
  {
    NumberBehind(pre, t, f, 0, 8);
    NumberBehind(pre, t, f, 8, 4);
    NumberBehind(pre, t, f, 12, 4);
    NumberBehind(pre, t, f, 16, 8);
  }

  lemma NumberBehind(pre: Bytes, t: Bytes, f: Bytes, at: nat, count: nat)
    requires f == pre + t && at + count <= |t|
    ensures Number(f, |pre| + at, count) == Field(t, at, count)
  {
    assert f[|pre| + at..|pre| + at + count] == t[at..at + count];
    GetIsWeighed(t[at..at + count]);
  }

  // ---- Which frames are accepted ----

  /** The frame of `m` with `tail` behind its fields. */
  function FrameOf(m: Message, tail: Bytes): Bytes {
    [ToByte(TypeOf(m))] + PutLe(|Payload(m)| + |tail|, 4) + (Payload(m) + tail)
  }

  /** Bytes behind the last field are allowed, except that a Symbol's are its data. */
  predicate TailAllowed(m: Message, tail: Bytes) {
    && |Payload(m)| + |tail| < Pow256(4) && (m.Symbol? ==> tail == [])
    && (m.Meta? ==> |m.filename| < Pow256(2)) && (m.Direct? ==> |m.addr| < Pow256(2))
  }

  lemma PutBack(b: Bytes, at: nat, count: nat)
    requires at + count <= |b|
    ensures PutLe(Field(b, at, count), count) == b[at..at + count]
    ensures Field(b, at, count) < Pow256(count)
  {
    GetPut(b[at..at + count]);
    GetBound(b[at..at + count]);
  }

  /** Reading back the parts a payload is cut into. */
  lemma TwoParts(b: Bytes, n: nat)
    requires n <= |b|
    ensures b == b[0..n] + b[n..]
  {}

  lemma ThreeParts(b: Bytes, n: nat, k: nat)
    requires n <= k <= |b|
    ensures b == b[0..n] + (b[n..k] + b[k..])
  {}

  lemma HelloRegroup(a: Bytes, b: Bytes, tail: Bytes)
    ensures a + (b + tail) == a + b + tail
  {}

  lemma HelloDecoded(b: Bytes, m: Message) returns (tail: Bytes)
    requires DecodePayload(TYPE_HELLO, b) == Ok(m)
    ensures m.Hello? && Typed(m) && b == Payload(m) + tail
  {
    tail := b[9..];
    PutBack(b, 0, 8);
    PutBack(b, 8, 1);
    ThreeParts(b, 8, 9);
    HelloRegroup(b[0..8], b[8..9], tail);
  }

  lemma SymbolDecoded(b: Bytes, m: Message)
    requires DecodePayload(TYPE_SYMBOL, b) == Ok(m)
    ensures m.Symbol? && Typed(m) && b == Payload(m)
  {
    PutBack(b, 0, 8);
    PutBack(b, 8, 4);
    ThreeParts(b, 8, 12);
  }

  lemma BareDecoded(ty: nat, b: Bytes, m: Message) returns (tail: Bytes)
    requires DecodePayload(ty, b) == Ok(m) && (ty == TYPE_DONE || ty == TYPE_READY)
    ensures (m.Done? || m.Ready?) && ty == TypeOf(m) && Typed(m) && b == Payload(m) + tail
  {
    PutBack(b, 0, 8);
    TwoParts(b, 8);
    tail := b[8..];
  }

  /** A name with its length in front, behind the session. */
  lemma NamedDecoded(b: Bytes, name: Bytes, rest: Bytes)
    requires |b| >= 10 && |name| == Field(b, 8, 2) && b[10..] == name + rest
    ensures b == PutLe(Field(b, 0, 8), 8) + (PutLe(|name|, 2) + (name + rest))
    ensures Field(b, 0, 8) < Pow256(8) && |name| < Pow256(2)
  {
    PutBack(b, 0, 8);
    PutBack(b, 8, 2);
    ThreeParts(b, 8, 10);
  }

  lemma DirectDecoded(b: Bytes, m: Message) returns (tail: Bytes)
    requires DecodePayload(TYPE_DIRECT, b) == Ok(m)
    ensures m.Direct? && Typed(m) && |m.addr| < Pow256(2) && b == Payload(m) + tail
  {
    tail := b[10..][Field(b, 8, 2)..];
    assert b[10..] == m.addr + tail;
    NamedDecoded(b, m.addr, tail);
    Regroup(PutLe(m.sessionId, 8), PutLe(|m.addr|, 2), m.addr, [], tail);
    assert m.addr + [] == m.addr && [] + tail == tail;
  }

  lemma Regroup(a: Bytes, b: Bytes, c: Bytes, d: Bytes, tail: Bytes)
    ensures a + (b + (c + (d + tail))) == a + (b + (c + d)) + tail
  {}

  lemma MetaCut(t: Bytes)
    requires |t| >= 24
    ensures t == t[0..8] + (t[8..12] + (t[12..16] + t[16..24])) + t[24..]
  {}

  lemma MetaFieldsDecoded(t: Bytes)
    requires |t| >= 24
    ensures t == MetaFields(Field(t, 0, 8), Field(t, 8, 4), Field(t, 12, 4), Field(t, 16, 8)) + t[24..]
    ensures Field(t, 0, 8) < Pow256(8) && Field(t, 8, 4) < Pow256(4) && Field(t, 12, 4) < Pow256(4) && Field(t, 16, 8) < Pow256(8)
  {
    MetaCut(t);
    PutBack(t, 0, 8);
    PutBack(t, 8, 4);
    PutBack(t, 12, 4);
    PutBack(t, 16, 8);
  }

  lemma MetaIs(b: Bytes, m: Message)
    requires DecodePayload(TYPE_META, b) == Ok(m)
    ensures m.Meta? && |b| >= 10 && |b[10..]| >= |m.filename| + 24
    ensures m.sessionId == Field(b, 0, 8) && |m.filename| == Field(b, 8, 2) && m.filename == b[10..][..|m.filename|]
    ensures Utf8(m.filename)
    ensures var t := b[10..][|m.filename|..];
            m.size == Field(t, 0, 8) && m.symbolSize == Field(t, 8, 4) && m.k == Field(t, 12, 4) && m.checksum == Field(t, 16, 8)
  {}

  lemma MetaRebuilt(b: Bytes, m: Message, t: Bytes, tail: Bytes)
    requires m.Meta? && |b| >= 10 && m.sessionId == Field(b, 0, 8) && |m.filename| == Field(b, 8, 2) && b[10..] == m.filename + t
    requires t == MetaFields(m.size, m.symbolSize, m.k, m.checksum) + tail
    ensures b == Payload(m) + tail && m.sessionId < Pow256(8) && |m.filename| < Pow256(2)
  {
    NamedDecoded(b, m.filename, t);
    Regroup(PutLe(m.sessionId, 8), PutLe(|m.filename|, 2), m.filename, MetaFields(m.size, m.symbolSize, m.k, m.checksum), tail);
  }

  lemma MetaDecoded(b: Bytes, m: Message) returns (tail: Bytes)
    requires DecodePayload(TYPE_META, b) == Ok(m)
    ensures m.Meta? && Typed(m) && |m.filename| < Pow256(2) && b == Payload(m) + tail
  {
    MetaIs(b, m);
    var t := b[10..][|m.filename|..];
    MetaFieldsDecoded(t);
    tail := t[24..];
    TakeDrop(b[10..], |m.filename|);
    MetaRebuilt(b, m, t, tail);
  }

  lemma TakeDrop(b: Bytes, n: nat)
    requires n <= |b|
    ensures b == b[..n] + b[n..]
  {}

  /** `b` is the payload of `m` and an allowed tail. */
  ghost predicate Carries(ty: nat, b: Bytes, m: Message, tail: Bytes) {
    && ty == TypeOf(m) && Typed(m) && b == Payload(m) + tail && (m.Symbol? ==> tail == [])
    && (m.Meta? ==> |m.filename| < Pow256(2)) && (m.Direct? ==> |m.addr| < Pow256(2))
  }

  lemma PayloadDecoded(ty: nat, b: Bytes, m: Message) returns (tail: Bytes)
    requires DecodePayload(ty, b) == Ok(m)
    ensures Carries(ty, b, m, tail)
  {
    if ty == TYPE_META {
      tail := MetaDecoded(b, m);
    } else if ty == TYPE_DIRECT {
      tail := DirectDecoded(b, m);
    } else if ty == TYPE_HELLO {
      tail := HelloDecoded(b, m);
    } else if ty == TYPE_SYMBOL {
      tail := [];
      SymbolDecoded(b, m);
    } else {
      tail := BareDecoded(ty, b, m);
    }
  }

  lemma FrameSplits(f: Bytes)
    requires |f| >= 5
    ensures f == [f[0]] + PutLe(Field(f, 1, 4), 4) + f[5..]
  {
    PutBack(f, 1, 4);
    assert f == [f[0]] + f[1..5] + f[5..];
  }

  lemma ByteBack(b: bv8)
    ensures ToByte(FromByte(b)) == b
  {
    SameByte(b, ToByte(FromByte(b)));
  }

  lemma LengthBound(f: Bytes)
    requires |f| >= 5
    ensures Field(f, 1, 4) < Pow256(4)
  {
    GetBound(f[1..5]);
  }

  lemma CarriedIsFrame(f: Bytes, m: Message, tail: Bytes)
    requires |f| >= 5 && |f| == 5 + Field(f, 1, 4) && Carries(FromByte(f[0]), f[5..], m, tail)
    ensures f == FrameOf(m, tail) && |Payload(m)| + |tail| < Pow256(4)
  {
    FrameSplits(f);
    ByteBack(f[0]);
    LengthBound(f);
  }

  /** Whatever decodes is the frame of the message it decodes to, with an allowed tail. */
  lemma DecodedFrames(f: Bytes, m: Message) returns (tail: Bytes)
    requires Decode(f) == Ok(m)
    ensures Typed(m) && TailAllowed(m, tail) && f == FrameOf(m, tail)
  {
    tail := PayloadDecoded(FromByte(f[0]), f[5..], m);
    CarriedIsFrame(f, m, tail);
  }

  lemma HelloAccepted(id: nat, role: nat, tail: Bytes)
    requires id < Pow256(8) && role < Pow256(1)
    ensures DecodePayload(TYPE_HELLO, Payload(Hello(id, role)) + tail) == Ok(Hello(id, role))
  {
    HeadField(id, PutLe(role, 1) + tail);
    FieldAt(PutLe(id, 8), role, 1, tail);
    assert Payload(Hello(id, role)) + tail == PutLe(id, 8) + (PutLe(role, 1) + tail);
  }

  lemma BareAccepted(id: nat, tail: Bytes)
    requires id < Pow256(8)
    ensures DecodePayload(TYPE_DONE, Payload(Done(id)) + tail) == Ok(Done(id))
    ensures DecodePayload(TYPE_READY, Payload(Ready(id)) + tail) == Ok(Ready(id))
  {
    HeadField(id, tail);
  }

  lemma NamedPieces(id: nat, name: Bytes, rest: Bytes)
    requires id < Pow256(8) && |name| < Pow256(2)
    ensures var b := PutLe(id, 8) + (PutLe(|name|, 2) + (name + rest));
            && Field(b, 0, 8) == id && Field(b, 8, 2) == |name| && b[10..] == name + rest
            && b[10..][..|name|] == name && b[10..][|name|..] == rest
  {
    HeadField(id, PutLe(|name|, 2) + (name + rest));
    FieldAt(PutLe(id, 8), |name|, 2, name + rest);
  }

  lemma DirectParts(b: Bytes, id: nat, addr: Bytes)
    requires |b| >= 10 && Field(b, 0, 8) == id && Field(b, 8, 2) == |addr| && addr <= b[10..] && Utf8(addr)
    ensures DecodePayload(TYPE_DIRECT, b) == Ok(Direct(id, addr))
  {
    assert b[10..][..|addr|] == addr;
  }

  lemma DirectWithTail(id: nat, addr: Bytes, tail: Bytes)
    ensures Payload(Direct(id, addr)) + tail == PutLe(id, 8) + (PutLe(|addr|, 2) + (addr + tail))
  {
    Regroup(PutLe(id, 8), PutLe(|addr|, 2), addr, [], tail);
    assert addr + [] == addr && [] + tail == tail;
  }

  lemma DirectAccepted(id: nat, addr: Bytes, tail: Bytes)
    requires id < Pow256(8) && |addr| < Pow256(2) && Utf8(addr)
    ensures DecodePayload(TYPE_DIRECT, Payload(Direct(id, addr)) + tail) == Ok(Direct(id, addr))
  {
    DirectWithTail(id, addr, tail);
    NamedPieces(id, addr, tail);
    DirectParts(Payload(Direct(id, addr)) + tail, id, addr);
  }

  lemma FieldsBefore(u: Bytes, tail: Bytes, at: nat, count: nat)
    requires at + count <= |u|
    ensures Field(u + tail, at, count) == Field(u, at, count)
  {
    assert (u + tail)[at..at + count] == u[at..at + count];
  }

  lemma MetaAccepted(m: Message, tail: Bytes)
    requires m.Meta? && Typed(m) && |m.filename| < Pow256(2)
    ensures DecodePayload(TYPE_META, Payload(m) + tail) == Ok(m)
  {
    var u := MetaFields(m.size, m.symbolSize, m.k, m.checksum);
    Regroup(PutLe(m.sessionId, 8), PutLe(|m.filename|, 2), m.filename, u, tail);
    NamedPieces(m.sessionId, m.filename, u + tail);
    MetaTail(m.size, m.symbolSize, m.k, m.checksum);
    FieldsBefore(u, tail, 0, 8);
    FieldsBefore(u, tail, 8, 4);
    FieldsBefore(u, tail, 12, 4);
    FieldsBefore(u, tail, 16, 8);
  }

  lemma PayloadAccepted(m: Message, tail: Bytes)
    requires Typed(m) && TailAllowed(m, tail)
    ensures DecodePayload(TypeOf(m), Payload(m) + tail) == Ok(m)
  {
    match m
    case Hello(id, role) => HelloAccepted(id, role, tail);
    case Meta(_, _, _, _, _, _) => MetaAccepted(m, tail);
    case Symbol(id, esi, data) =>
      assert Payload(m) + tail == Payload(m);
      SymbolRoundTrip(id, esi, data);
    case Done(id) => BareAccepted(id, tail);
    case Ready(id) => BareAccepted(id, tail);
    case Direct(id, addr) => DirectAccepted(id, addr, tail);
  }

  lemma FramePieces(ty: Bytes, len: Bytes, p: Bytes)
    requires |ty| == 1 && |len| == 4
    ensures var f := ty + len + p; f[0] == ty[0] && f[1..5] == len && f[5..] == p
  {}

  lemma FrameHead(m: Message, tail: Bytes)
    requires |Payload(m)| + |tail| < Pow256(4)
    ensures var f := FrameOf(m, tail);
            |f| == 5 + Field(f, 1, 4) && FromByte(f[0]) == TypeOf(m) && f[5..] == Payload(m) + tail
  {
    FramePieces([ToByte(TypeOf(m))], PutLe(|Payload(m)| + |tail|, 4), Payload(m) + tail);
    PutGet(|Payload(m)| + |tail|, 4);
  }

  /** And every such frame decodes to its message. */
  lemma FramesDecode(m: Message, tail: Bytes)
    requires Typed(m) && TailAllowed(m, tail)
    ensures Decode(FrameOf(m, tail)) == Ok(m)
  {
    FrameHead(m, tail);
    PayloadAccepted(m, tail);
  }

  /** The frames accepted, exactly. */
  ghost predicate Accepts(f: Bytes, m: Message) { Typed(m) && exists tail :: TailAllowed(m, tail) && f == FrameOf(m, tail) }

  lemma DecodesExactly(f: Bytes, m: Message)
    ensures Decode(f) == Ok(m) <==> Accepts(f, m)
  {
    if Decode(f) == Ok(m) {
      var tail := DecodedFrames(f, m);
    } else if Accepts(f, m) {
      var tail :| TailAllowed(m, tail) && f == FrameOf(m, tail);
      FramesDecode(m, tail);
      assert false;
    }
  }

  // ---- When a buffer gives a frame ----

  /** A buffer waits, is refused or gives a frame by its first length field alone:
      refused above 512 MiB, complete once five bytes and that many more are there. */
  lemma ParsesByLength(b: Bytes)
    ensures ParseResult(b) == Incomplete <==> |b| < 5 || (Number(b, 1, 4) <= 536870912 && |b| < 5 + Number(b, 1, 4))
    ensures ParseResult(b).TooLarge? <==> |b| >= 5 && Number(b, 1, 4) > 536870912
    ensures ParseResult(b).Frame? ==>
              ParseResult(b) == Frame(Decode(b[..5 + Number(b, 1, 4)])) && ParseRest(b) == b[5 + Number(b, 1, 4)..]
  {
    if |b| >= 5 { NumberIsField(b, 1, 4); }
  }
}
