/** Binary framing (crates/orbit-protocol/src/wire.rs). */
module Wire {
  import opened Bytes

  const TYPE_HELLO: nat := 0x01
  const TYPE_META: nat := 0x02
  const TYPE_SYMBOL: nat := 0x03
  const TYPE_DONE: nat := 0x04
  const TYPE_READY: nat := 0x05
  const TYPE_DIRECT: nat := 0x06

  const ROLE_SENDER: nat := 0x01
  const ROLE_RECEIVER: nat := 0x02

  const MAX_FRAME: nat := 512 * 1024 * 1024

  datatype Message =
    | Hello(sessionId: nat, role: nat)
    | Meta(sessionId: nat, filename: Bytes, size: nat, symbolSize: nat, k: nat, checksum: nat)
    | Symbol(sessionId: nat, esi: nat, data: Bytes)
    | Done(sessionId: nat)
    | Ready(sessionId: nat)
    | Direct(sessionId: nat, addr: Bytes)

  datatype ProtocolError =
    | InvalidType(ty: nat)
    | FrameTooLarge(len: nat)
    | Truncated
    | InvalidFilename

  /** Result of decoding; `Panicked` is the abort of a field read past the end. */
  datatype Decoded =
    | Ok(msg: Message)
    | Err(error: ProtocolError)
    | Panicked

  /** The fields hold values of their types: u64 ids, sizes and checksums, u32
      ESI, symbol size and K, a role byte, well-formed strings. */
  predicate Typed(m: Message) {
    m.sessionId < Pow256(8) &&
    match m
    case Hello(_, role) => role < Pow256(1)
    case Meta(_, filename, size, symbolSize, k, checksum) =>
      Utf8(filename) && size < Pow256(8) && symbolSize < Pow256(4) && k < Pow256(4) && checksum < Pow256(8)
    case Symbol(_, esi, data) => esi < Pow256(4)
    case Direct(_, addr) => Utf8(addr)
    case _ => true
  }

  function TypeOf(m: Message): (ty: nat)
    ensures 1 <= ty <= 6
  {
    match m
    case Hello(_, _) => TYPE_HELLO
    case Meta(_, _, _, _, _, _) => TYPE_META
    case Symbol(_, _, _) => TYPE_SYMBOL
    case Done(_) => TYPE_DONE
    case Ready(_) => TYPE_READY
    case Direct(_, _) => TYPE_DIRECT
  }

  function MetaFields(size: nat, symbolSize: nat, k: nat, checksum: nat): Bytes {
    PutLe(size, 8) + (PutLe(symbolSize, 4) + (PutLe(k, 4) + PutLe(checksum, 8)))
  }

  /** Everything after the five header bytes. */
  function Payload(m: Message): Bytes {
    match m
    case Hello(id, role) => PutLe(id, 8) + PutLe(role, 1)
    case Meta(id, filename, size, symbolSize, k, checksum) =>
      PutLe(id, 8) + (PutLe(|filename|, 2) + (filename + MetaFields(size, symbolSize, k, checksum)))
    case Symbol(id, esi, data) => PutLe(id, 8) + (PutLe(esi, 4) + data)
    case Done(id) => PutLe(id, 8)
    case Ready(id) => PutLe(id, 8)
    case Direct(id, addr) => PutLe(id, 8) + (PutLe(|addr|, 2) + addr)
  }

  function Encode(m: Message): (f: Bytes)
    ensures |f| == 5 + |Payload(m)|
  {
    [ToByte(TypeOf(m))] + PutLe(|Payload(m)|, 4) + Payload(m)
  }

  /** Little-endian field of `count` bytes at `at`. */
  function Field(b: Bytes, at: nat, count: nat): nat
    requires at + count <= |b|
  {
    GetLe(b[at..at + count])
  }

  function DecodePayload(ty: nat, b: Bytes): Decoded {
    if ty == TYPE_HELLO then
      if |b| < 9 then Err(Truncated) else Ok(Hello(Field(b, 0, 8), Field(b, 8, 1)))
    else if ty == TYPE_META then
      if |b| < 10 then Err(Truncated) else DecodeMeta(Field(b, 0, 8), Field(b, 8, 2), b[10..])
    else if ty == TYPE_SYMBOL then
      if |b| < 12 then Err(Truncated) else Ok(Symbol(Field(b, 0, 8), Field(b, 8, 4), b[12..]))
    else if ty == TYPE_DONE then
      if |b| < 8 then Err(Truncated) else Ok(Done(Field(b, 0, 8)))
    else if ty == TYPE_READY then
      if |b| < 8 then Err(Truncated) else Ok(Ready(Field(b, 0, 8)))
    else if ty == TYPE_DIRECT then
      if |b| < 10 then Err(Truncated) else DecodeDirect(Field(b, 0, 8), Field(b, 8, 2), b[10..])
    else Err(InvalidType(ty))
  }

  /** The guard asks for 20 bytes after the name, the fields take 24. */
  function DecodeMeta(id: nat, nameLen: nat, b: Bytes): Decoded {
    if |b| < nameLen + 20 then Err(Truncated)
    else if !Utf8(b[..nameLen]) then Err(InvalidFilename)
    else if |b| < nameLen + 24 then Panicked
    else
      var t := b[nameLen..];
      Ok(Meta(id, b[..nameLen], Field(t, 0, 8), Field(t, 8, 4), Field(t, 12, 4), Field(t, 16, 8)))
  }

  function DecodeDirect(id: nat, addrLen: nat, b: Bytes): Decoded {
    if |b| < addrLen then Err(Truncated)
    else if !Utf8(b[..addrLen]) then Err(InvalidFilename)
    else Ok(Direct(id, b[..addrLen]))
  }

  function Decode(frame: Bytes): Decoded {
    if |frame| < 5 then Err(Truncated)
    else if |frame| != 5 + Field(frame, 1, 4) then Err(Truncated)
    else DecodePayload(FromByte(frame[0]), frame[5..])
  }

  // ---- Round trip ----

  /** The lengths the format has room for. */
  predicate WithinLimits(m: Message) {
    && |Payload(m)| < Pow256(4)
    && (m.Meta? ==> |m.filename| < Pow256(2))
    && (m.Direct? ==> |m.addr| < Pow256(2))
  }

  /** Reading back a field that was put at the front. */
  lemma FieldAt(pre: Bytes, n: nat, count: nat, post: Bytes)
    requires n < Pow256(count)
    ensures Field(pre + (PutLe(n, count) + post), |pre|, count) == n
    ensures (pre + (PutLe(n, count) + post))[|pre| + count..] == post
  {
    PutGet(n, count);
    assert (pre + (PutLe(n, count) + post))[|pre|..|pre| + count] == PutLe(n, count);
  }

  lemma MetaTail(size: nat, symbolSize: nat, k: nat, checksum: nat)
    requires size < Pow256(8) && symbolSize < Pow256(4) && k < Pow256(4) && checksum < Pow256(8)
    ensures var t := MetaFields(size, symbolSize, k, checksum);
            |t| == 24 && Field(t, 0, 8) == size && Field(t, 8, 4) == symbolSize && Field(t, 12, 4) == k && Field(t, 16, 8) == checksum
  {
    var a, b, c, d := PutLe(size, 8), PutLe(symbolSize, 4), PutLe(k, 4), PutLe(checksum, 8);
    var t := a + (b + (c + d));
    FieldAt([], size, 8, b + (c + d));
    assert [] + (a + (b + (c + d))) == t;
    FieldAt(a, symbolSize, 4, c + d);
    FieldAt(a + b, k, 4, d);
    assert a + b + (c + d) == t;
    FieldAt(a + b + c, checksum, 8, []);
    assert a + b + c + (d + []) == t;
  }

  lemma HeadField(id: nat, rest: Bytes)
    requires id < Pow256(8)
    ensures var b := PutLe(id, 8) + rest; Field(b, 0, 8) == id && b[8..] == rest
  {
    FieldAt([], id, 8, rest);
    assert [] + (PutLe(id, 8) + rest) == PutLe(id, 8) + rest;
  }

  lemma HelloRoundTrip(id: nat, role: nat)
    requires id < Pow256(8) && role < Pow256(1)
    ensures DecodePayload(TYPE_HELLO, Payload(Hello(id, role))) == Ok(Hello(id, role))
  {
    HeadField(id, PutLe(role, 1));
    FieldAt(PutLe(id, 8), role, 1, []);
    assert PutLe(id, 8) + (PutLe(role, 1) + []) == Payload(Hello(id, role));
  }

  lemma MetaHead(id: nat, filename: Bytes, size: nat, symbolSize: nat, k: nat, checksum: nat)
    requires id < Pow256(8) && |filename| < Pow256(2)
    ensures DecodePayload(TYPE_META, Payload(Meta(id, filename, size, symbolSize, k, checksum)))
         == DecodeMeta(id, |filename|, filename + MetaFields(size, symbolSize, k, checksum))
  {
    var t := MetaFields(size, symbolSize, k, checksum);
    HeadField(id, PutLe(|filename|, 2) + (filename + t));
    FieldAt(PutLe(id, 8), |filename|, 2, filename + t);
  }

  lemma MetaBody(id: nat, filename: Bytes, size: nat, symbolSize: nat, k: nat, checksum: nat)
    requires Utf8(filename)
    requires size < Pow256(8) && symbolSize < Pow256(4) && k < Pow256(4) && checksum < Pow256(8)
    ensures DecodeMeta(id, |filename|, filename + MetaFields(size, symbolSize, k, checksum))
         == Ok(Meta(id, filename, size, symbolSize, k, checksum))
  {
    var t := MetaFields(size, symbolSize, k, checksum);
    MetaTail(size, symbolSize, k, checksum);
    assert (filename + t)[..|filename|] == filename && (filename + t)[|filename|..] == t;
  }

  lemma SymbolRoundTrip(id: nat, esi: nat, data: Bytes)
    requires id < Pow256(8) && esi < Pow256(4)
    ensures DecodePayload(TYPE_SYMBOL, Payload(Symbol(id, esi, data))) == Ok(Symbol(id, esi, data))
  {
    HeadField(id, PutLe(esi, 4) + data);
    FieldAt(PutLe(id, 8), esi, 4, data);
  }

  lemma BareRoundTrip(id: nat)
    requires id < Pow256(8)
    ensures DecodePayload(TYPE_DONE, Payload(Done(id))) == Ok(Done(id))
    ensures DecodePayload(TYPE_READY, Payload(Ready(id))) == Ok(Ready(id))
  {
    HeadField(id, []);
    assert PutLe(id, 8) + [] == PutLe(id, 8);
  }

  lemma DirectHead(id: nat, addr: Bytes)
    requires id < Pow256(8) && |addr| < Pow256(2)
    ensures DecodePayload(TYPE_DIRECT, Payload(Direct(id, addr))) == DecodeDirect(id, |addr|, addr)
  {
    HeadField(id, PutLe(|addr|, 2) + addr);
    FieldAt(PutLe(id, 8), |addr|, 2, addr);
  }

  lemma DirectBody(id: nat, addr: Bytes)
    requires Utf8(addr)
    ensures DecodeDirect(id, |addr|, addr) == Ok(Direct(id, addr))
  {
    assert addr[..|addr|] == addr;
  }

  lemma PayloadRoundTrip(m: Message)
    requires Typed(m) && WithinLimits(m)
    ensures DecodePayload(TypeOf(m), Payload(m)) == Ok(m)
  {
    match m
    case Hello(id, role) => HelloRoundTrip(id, role);
    case Meta(id, filename, size, symbolSize, k, checksum) =>
      MetaHead(id, filename, size, symbolSize, k, checksum);
      MetaBody(id, filename, size, symbolSize, k, checksum);
    case Symbol(id, esi, data) => SymbolRoundTrip(id, esi, data);
    case Done(id) => BareRoundTrip(id);
    case Ready(id) => BareRoundTrip(id);
    case Direct(id, addr) =>
      DirectHead(id, addr);
      DirectBody(id, addr);
  }

  lemma Halves(a: Bytes, b: Bytes)
    ensures (a + b)[..|a|] == a && (a + b)[|a|..] == b
  {}

  lemma FrameParts(ty: Bytes, n: nat, p: Bytes, post: Bytes)
    requires |ty| == 1 && n < Pow256(4)
    ensures var e := ty + PutLe(n, 4) + p;
            var f := e + post;
            && |e| >= 5 && f[0] == ty[0] && Field(f, 1, 4) == n
            && f[..|e|] == e && f[|e|..] == post && e[5..] == p
  {
    FieldAt(ty, n, 4, p + post);
    assert ty + (PutLe(n, 4) + (p + post)) == ty + PutLe(n, 4) + p + post;
    Halves(ty + PutLe(n, 4) + p, post);
    Halves(ty + PutLe(n, 4), p);
  }

  /** What the header of an encoded frame says, whatever follows it. */
  lemma HeaderOf(m: Message, post: Bytes)
    requires |Payload(m)| < Pow256(4)
    ensures var f := Encode(m) + post;
            FromByte(f[0]) == TypeOf(m) && Field(f, 1, 4) == |Payload(m)|
            && f[..|Encode(m)|] == Encode(m) && f[|Encode(m)|..] == post
            && Encode(m)[5..] == Payload(m)
  {
    FrameParts([ToByte(TypeOf(m))], |Payload(m)|, Payload(m), post);
  }

  /** Decoded names come from two-byte lengths. */
  lemma DecodedNamesAreShort(f: Bytes, m: Message)
    requires Decode(f) == Ok(m)
    ensures m.Meta? ==> |m.filename| < Pow256(2)
    ensures m.Direct? ==> |m.addr| < Pow256(2)
  {
    var b := f[5..];
    if |b| >= 10 { GetBound(b[8..10]); }
  }

  lemma OverlongFrameIsTruncated(m: Message)
    requires |Payload(m)| >= Pow256(4)
    ensures Decode(Encode(m)) == Err(Truncated)
  {
    GetBound(Encode(m)[1..5]);
  }

  /** Decoding what was encoded gives the message back exactly when its lengths fit their fields. */
  lemma RoundTrip(m: Message)
    requires Typed(m)
    ensures Decode(Encode(m)) == Ok(m) <==> WithinLimits(m)
  {
    if |Payload(m)| >= Pow256(4) {
      OverlongFrameIsTruncated(m);
    } else {
      HeaderOf(m, []);
      assert Encode(m) + [] == Encode(m);
      if WithinLimits(m) {
        PayloadRoundTrip(m);
      } else if Decode(Encode(m)) == Ok(m) {
        DecodedNamesAreShort(Encode(m), m);
        assert false;
      }
    }
  }

  /** Decoding aborts only on a Meta frame whose fixed fields are short by one to four bytes. */
  lemma PanicsExactlyOnShortMeta(f: Bytes)
    ensures Decode(f).Panicked? <==>
              && |f| >= 15 && |f| == 5 + Field(f, 1, 4) && FromByte(f[0]) == TYPE_META
              && (var n := Field(f, 13, 2); 15 + n + 20 <= |f| < 15 + n + 24 && Utf8(f[15..15 + n]))
  {
    if |f| >= 15 {
      var b := f[5..];
      assert b[8..10] == f[13..15];
      var n := Field(f, 13, 2);
      if |f| >= 15 + n { assert b[10..][..n] == f[15..15 + n]; }
    }
  }

  /** A Meta frame with an empty name and 20 bytes after it passes the guard and aborts. */
  lemma ShortMetaPanics(id: nat)
    requires id < Pow256(8)
    ensures var f := [ToByte(TYPE_META)] + PutLe(30, 4) + PutLe(id, 8) + PutLe(0, 2) + PutLe(0, 20);
            |f| == 35 && Decode(f) == Panicked
  {
    var ty, len, head, tail := [ToByte(TYPE_META)], PutLe(30, 4), PutLe(id, 8), PutLe(0, 20);
    var f := ty + len + head + PutLe(0, 2) + tail;
    FieldAt(ty, 30, 4, head + PutLe(0, 2) + tail);
    assert ty + (len + (head + PutLe(0, 2) + tail)) == f;
    FieldAt(ty + len + head, 0, 2, tail);
    assert ty + len + head + (PutLe(0, 2) + tail) == f;
    assert f[15..15] == [];
    PanicsExactlyOnShortMeta(f);
  }
}
