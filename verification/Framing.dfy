/** Frames on a byte stream, and the buffer operations of
    crates/orbit-protocol/src/wire.rs. */
module Framing {
  import opened Bytes
  import opened Wire

  /** What parsing a buffer yields: nothing yet, or one frame's decoding. */
  datatype Parsed = Incomplete | TooLarge(len: nat) | Frame(result: Decoded)

  function ParseResult(buf: Bytes): Parsed {
    if |buf| < 5 then Incomplete
    else
      var len := Field(buf, 1, 4);
      if len > MAX_FRAME then TooLarge(len)
      else if |buf| < 5 + len then Incomplete
      else Frame(Decode(buf[..5 + len]))
  }

  /** What parsing leaves: everything, unless a frame was taken off the front. */
  function ParseRest(buf: Bytes): (r: Bytes)
    ensures |r| <= |buf|
    ensures ParseResult(buf).Frame? ==> |r| < |buf|
  {
    if ParseResult(buf).Frame? then buf[5 + Field(buf, 1, 4)..] else buf
  }

  /** All frames at the front of a buffer; `ok` is false once one fails to decode. */
  datatype Drained = Drained(msgs: seq<Message>, rest: Bytes, ok: bool)

  function Drain(buf: Bytes): (d: Drained)
    decreases |buf|
  {
    match ParseResult(buf)
    case Incomplete => Drained([], buf, true)
    case TooLarge(_) => Drained([], buf, false)
    case Frame(Ok(m)) =>
      var d := Drain(ParseRest(buf));
      Drained([m] + d.msgs, d.rest, d.ok)
    case Frame(_) => Drained([], ParseRest(buf), false)
  }

  // ---- Chunking does not matter ----

  /** More bytes behind a complete frame change neither the frame nor what is cut off. */
  lemma ParseIsStable(a: Bytes, b: Bytes)
    requires ParseResult(a).Frame? || ParseResult(a).TooLarge?
    ensures ParseResult(a + b) == ParseResult(a)
    ensures ParseRest(a + b) == ParseRest(a) + b
  {
    assert (a + b)[1..5] == a[1..5];
    var len := Field(a, 1, 4);
    if len <= MAX_FRAME {
      assert (a + b)[..5 + len] == a[..5 + len];
      assert (a + b)[5 + len..] == a[5 + len..] + b;
    }
  }

  function Prepend(ms: seq<Message>, d: Drained): Drained { d.(msgs := ms + d.msgs) }

  lemma DrainFrame(a: Bytes, m: Message)
    requires ParseResult(a) == Frame(Ok(m))
    ensures Drain(a) == Prepend([m], Drain(ParseRest(a)))
  {}

  lemma DrainIncomplete(a: Bytes)
    requires ParseResult(a) == Incomplete
    ensures Drain(a) == Drained([], a, true)
  {}

  lemma DrainOkCases(a: Bytes)
    requires Drain(a).ok
    ensures ParseResult(a) == Incomplete || (ParseResult(a).Frame? && ParseResult(a).result.Ok? && Drain(ParseRest(a)).ok)
  {}

  lemma PrependTwice(ms: seq<Message>, ns: seq<Message>, d: Drained)
    ensures Prepend(ms, Prepend(ns, d)) == Prepend(ms + ns, d)
  {
    assert ms + (ns + d.msgs) == (ms + ns) + d.msgs;
  }

  /** Draining in two instalments is draining at once. */
  lemma {:induction false} DrainInTwo(a: Bytes, b: Bytes)
    requires Drain(a).ok
    ensures Drain(a + b) == Prepend(Drain(a).msgs, Drain(Drain(a).rest + b))
    decreases |a|
  {
    DrainOkCases(a);
    if ParseResult(a).Frame? {
      var m := ParseResult(a).result.msg;
      ParseIsStable(a, b);
      DrainFrame(a, m);
      DrainFrame(a + b, m);
      DrainInTwo(ParseRest(a), b);
      PrependTwice([m], Drain(ParseRest(a)).msgs, Drain(Drain(ParseRest(a)).rest + b));
    } else {
      DrainIncomplete(a);
    }
  }

  function Concat(chunks: seq<Bytes>): Bytes {
    if chunks == [] then [] else Concat(chunks[..|chunks| - 1]) + chunks[|chunks| - 1]
  }

  function EncodeAll(ms: seq<Message>): Bytes {
    if ms == [] then [] else Encode(ms[0]) + EncodeAll(ms[1..])
  }

  /** Messages that can be framed and parsed back. */
  predicate Framable(m: Message) { Typed(m) && WithinLimits(m) && |Payload(m)| <= MAX_FRAME }

  /** A proper prefix of a frame parses to nothing and is left alone. */
  lemma PartialFrame(m: Message, p: Bytes)
    requires Framable(m) && p < Encode(m)
    ensures ParseResult(p) == Incomplete && Drain(p) == Drained([], p, true)
  {
    HeaderOf(m, []);
    assert Encode(m) + [] == Encode(m);
    if |p| >= 5 { assert p[1..5] == Encode(m)[1..5]; }
  }

  lemma WholeFrame(m: Message, post: Bytes)
    requires Framable(m)
    ensures ParseResult(Encode(m) + post) == Frame(Ok(m)) && ParseRest(Encode(m) + post) == post
  {
    HeaderOf(m, post);
    RoundTrip(m);
  }

  /** How many whole frames fit in `n` bytes. */
  function FramesWithin(ms: seq<Message>, n: nat): (i: nat)
    ensures i <= |ms|
  {
    if ms == [] || |Encode(ms[0])| > n then 0 else 1 + FramesWithin(ms[1..], n - |Encode(ms[0])|)
  }

  lemma PrefixOfAppend(p: Bytes, f: Bytes, rest: Bytes)
    requires p <= f + rest
    ensures |p| <= |f| ==> p <= f
    ensures |p| >= |f| ==> p[|f|..] <= rest && p == f + p[|f|..]
  {
    assert p == (f + rest)[..|p|];
    if |p| <= |f| {
      assert p == f[..|p|];
    } else {
      assert p[..|f|] == f;
      assert p[|f|..] == rest[..|p| - |f|];
    }
  }

  lemma EncodeAllNext(ms: seq<Message>, i: nat)
    requires ms != [] && i < |ms|
    ensures EncodeAll(ms[..i + 1]) == Encode(ms[0]) + EncodeAll(ms[1..][..i])
    ensures ms[..i + 1] == [ms[0]] + ms[1..][..i]
  {
    assert ms[..i + 1][1..] == ms[1..][..i];
  }

  /** The frames that fit end within `n` bytes; the next one does not. */
  lemma {:induction false} FramesWithinIsExact(ms: seq<Message>, n: nat)
    ensures |EncodeAll(ms[..FramesWithin(ms, n)])| <= n
    ensures FramesWithin(ms, n) < |ms| ==> n < |EncodeAll(ms[..FramesWithin(ms, n) + 1])|
  {
    if ms == [] {
    } else if |Encode(ms[0])| <= n {
      var i := FramesWithin(ms[1..], n - |Encode(ms[0])|);
      FramesWithinIsExact(ms[1..], n - |Encode(ms[0])|);
      EncodeAllNext(ms, i);
      if i + 1 < |ms| { EncodeAllNext(ms, i + 1); }
    } else {
      EncodeAllNext(ms, 0);
      assert EncodeAll(ms[..0]) == [];
    }
  }

  lemma DropTwice(f: Bytes, q: Bytes, n: nat)
    requires n <= |q|
    ensures (f + q)[|f| + n..] == q[n..]
  {}

  ghost predicate DrainsTo(ms: seq<Message>, p: Bytes, i: nat)
    requires i <= |ms|
  {
    && |EncodeAll(ms[..i])| <= |p|
    && Drain(p) == Drained(ms[..i], p[|EncodeAll(ms[..i])|..], true)
  }

  lemma DrainsNext(ms: seq<Message>, q: Bytes, i: nat)
    requires ms != [] && Framable(ms[0]) && i < |ms| && DrainsTo(ms[1..], q, i)
    ensures DrainsTo(ms, Encode(ms[0]) + q, i + 1)
  {
    var f := Encode(ms[0]);
    WholeFrame(ms[0], q);
    DrainFrame(f + q, ms[0]);
    EncodeAllNext(ms, i);
    DropTwice(f, q, |EncodeAll(ms[1..][..i])|);
  }

  /** Any prefix of an encoded stream drains to exactly its whole frames and
      leaves exactly the bytes after them. */
  lemma {:induction false} PrefixDrains(ms: seq<Message>, p: Bytes)
    requires forall i | 0 <= i < |ms| :: Framable(ms[i])
    requires p <= EncodeAll(ms)
    ensures DrainsTo(ms, p, FramesWithin(ms, |p|))
    decreases |ms|
  {
    if ms == [] {
      assert p == [] && ms[..0] == [];
    } else {
      PrefixOfAppend(p, Encode(ms[0]), EncodeAll(ms[1..]));
      if |p| < |Encode(ms[0])| {
        PartialFrame(ms[0], p);
        assert ms[..0] == [];
      } else {
        var q := p[|Encode(ms[0])|..];
        PrefixDrains(ms[1..], q);
        DrainsNext(ms, q, FramesWithin(ms[1..], |q|));
      }
    }
  }

  lemma {:induction false} FramesWithinAll(ms: seq<Message>)
    ensures FramesWithin(ms, |EncodeAll(ms)|) == |ms|
  {
    if ms != [] { FramesWithinAll(ms[1..]); }
  }

  // ---- The buffer itself ----

  /** A growable buffer with a consuming read end. */
  class ByteBuf {
    var data: Bytes

    constructor (initial: Bytes)
      ensures data == initial
    {
      data := initial;
    }

    method PutLeField(n: nat, count: nat)
      modifies this
      ensures data == old(data) + PutLe(n, count)
    {
      data := data + PutLe(n, count);
    }

    method PutSlice(s: Bytes)
      modifies this
      ensures data == old(data) + s
    {
      data := data + s;
    }

    method GetLeField(count: nat) returns (n: nat)
      requires count <= |data|
      modifies this
      ensures n == Field(old(data), 0, count) && data == old(data)[count..]
    {
      n := GetLe(data[0..count]);
      data := data[count..];
    }

    method SplitTo(n: nat) returns (front: Bytes)
      requires n <= |data|
      modifies this
      ensures front == old(data)[..n] && data == old(data)[n..]
    {
      front := data[..n];
      data := data[n..];
    }

    /** Takes one complete frame off the front, if there is one. */
    method ParseFrame() returns (p: Parsed)
      modifies this
      ensures p == ParseResult(old(data)) && data == ParseRest(old(data))
    {
      if |data| < 5 { return Incomplete; }
      var len := GetLe(data[1..5]);
      if len > MAX_FRAME { return TooLarge(len); }
      if |data| < 5 + len { return Incomplete; }
      var frame := SplitTo(5 + len);
      var r := DecodeFrame(frame);
      return Frame(r);
    }

    /** Appends a chunk and parses until no complete frame is left. */
    method Receive(chunk: Bytes) returns (msgs: seq<Message>, ok: bool)
      modifies this
      ensures Drained(msgs, data, ok) == Drain(old(data) + chunk)
    {
      PutSlice(chunk);
      ghost var whole := Drain(data);
      msgs, ok := [], true;
      while true
        invariant ok
        invariant whole == Drained(msgs + Drain(data).msgs, Drain(data).rest, Drain(data).ok)
        decreases |data|
      {
        ghost var before := data;
        var p := ParseFrame();
        match p {
          case Incomplete => break;
          case TooLarge(_) => ok := false; break;
          case Frame(r) =>
            if !r.Ok? { ok := false; break; }
            assert msgs + ([r.msg] + Drain(data).msgs) == (msgs + [r.msg]) + Drain(data).msgs;
            msgs := msgs + [r.msg];
        }
      }
      assert msgs + [] == msgs;
    }

    /** Feeds a whole stream in chunks to a retained buffer. */
    method ReceiveAll(chunks: seq<Bytes>, ghost ms: seq<Message>) returns (msgs: seq<Message>)
      requires data == []
      requires forall i | 0 <= i < |ms| :: Framable(ms[i])
      requires Concat(chunks) == EncodeAll(ms)
      modifies this
      ensures msgs == ms && data == []
    {
      msgs := [];
      assert chunks[..0] == [];
      for j := 0 to |chunks|
        invariant Concat(chunks[..j]) <= EncodeAll(ms)
        invariant Drain(Concat(chunks[..j])) == Drained(msgs, data, true)
      {
        PrefixOfConcat(chunks, j + 1);
        assert chunks[..j + 1][..j] == chunks[..j];
        PrefixDrains(ms, Concat(chunks[..j + 1]));
        DrainInTwo(Concat(chunks[..j]), chunks[j]);
        var more, ok := Receive(chunks[j]);
        msgs := msgs + more;
      }
      assert chunks[..|chunks|] == chunks;
      PrefixDrains(ms, EncodeAll(ms));
      FramesWithinAll(ms);
      assert ms[..|ms|] == ms;
    }
  }

  lemma {:induction false} PrefixOfConcat(chunks: seq<Bytes>, j: nat)
    requires j <= |chunks|
    ensures Concat(chunks[..j]) <= Concat(chunks)
  {
    if j == |chunks| {
      assert chunks[..j] == chunks;
    } else {
      PrefixOfConcat(chunks[..|chunks| - 1], j);
      assert chunks[..|chunks| - 1][..j] == chunks[..j];
    }
  }

  /** Builds a frame: payload first, then type, length and payload. */
  method EncodeFrame(m: Message) returns (frame: ByteBuf)
    ensures fresh(frame) && frame.data == Encode(m)
  {
    var payload := new ByteBuf([]);
    payload.PutLeField(m.sessionId, 8);
    assert payload.data == PutLe(m.sessionId, 8);
    PutBody(m, payload);
    frame := new ByteBuf([ToByte(TypeOf(m))]);
    frame.PutLeField(|payload.data|, 4);
    frame.PutSlice(payload.data);
  }

  method PutBody(m: Message, payload: ByteBuf)
    requires payload.data == PutLe(m.sessionId, 8)
    modifies payload
    ensures payload.data == Payload(m)
  {
    match m {
      case Hello(_, role) => payload.PutLeField(role, 1);
      case Meta(_, filename, size, symbolSize, k, checksum) => PutMeta(filename, size, symbolSize, k, checksum, payload);
      case Symbol(id, esi, data) =>
        payload.PutLeField(esi, 4);
        payload.PutSlice(data);
        Reassociate(PutLe(id, 8), PutLe(esi, 4), data);
      case Done(_) =>
      case Ready(_) =>
      case Direct(id, addr) =>
        payload.PutLeField(|addr|, 2);
        payload.PutSlice(addr);
        Reassociate(PutLe(id, 8), PutLe(|addr|, 2), addr);
    }
  }

  lemma Reassociate(a: Bytes, b: Bytes, c: Bytes)
    ensures (a + b) + c == a + (b + c)
  {}

  method PutMeta(filename: Bytes, size: nat, symbolSize: nat, k: nat, checksum: nat, payload: ByteBuf)
    modifies payload
    ensures payload.data
         == old(payload.data) + (PutLe(|filename|, 2) + (filename + MetaFields(size, symbolSize, k, checksum)))
  {
    ghost var before := payload.data;
    payload.PutLeField(|filename|, 2);
    payload.PutSlice(filename);
    Reassociate(before, PutLe(|filename|, 2), filename);
    PutMetaFields(size, symbolSize, k, checksum, payload);
    Reassociate(before, PutLe(|filename|, 2) + filename, MetaFields(size, symbolSize, k, checksum));
    Reassociate(PutLe(|filename|, 2), filename, MetaFields(size, symbolSize, k, checksum));
  }

  method PutMetaFields(size: nat, symbolSize: nat, k: nat, checksum: nat, payload: ByteBuf)
    modifies payload
    ensures payload.data == old(payload.data) + MetaFields(size, symbolSize, k, checksum)
  {
    FourParts(payload.data, PutLe(size, 8), PutLe(symbolSize, 4), PutLe(k, 4), PutLe(checksum, 8));
    payload.PutLeField(size, 8);
    payload.PutLeField(symbolSize, 4);
    payload.PutLeField(k, 4);
    payload.PutLeField(checksum, 8);
  }

  lemma FourParts(p: Bytes, a: Bytes, b: Bytes, c: Bytes, d: Bytes)
    ensures (((p + a) + b) + c) + d == p + (a + (b + (c + d)))
  {
    Reassociate(p + a + b, c, d);
    Reassociate(p + a, b, c + d);
    Reassociate(p, a, b + (c + d));
  }

  /** A field of what is left after a consumed prefix. */
  lemma FieldAfter(b: Bytes, skip: nat, count: nat)
    requires skip + count <= |b|
    ensures Field(b[skip..], 0, count) == Field(b, skip, count)
    ensures b[skip..][count..] == b[skip + count..]
  {
    assert b[skip..][0..count] == b[skip..skip + count];
  }

  /** Decodes one frame with a consuming cursor. */
  method DecodeFrame(frame: Bytes) returns (r: Decoded)
    ensures r == Decode(frame)
  {
    if |frame| < 5 { return Err(Truncated); }
    var ty := FromByte(frame[0]);
    var len := GetLe(frame[1..5]);
    if |frame| != 5 + len { return Err(Truncated); }
    var b := new ByteBuf(frame[5..]);
    r := DecodeBody(ty, b);
  }

  method DecodeBody(ty: nat, b: ByteBuf) returns (r: Decoded)
    modifies b
    ensures r == DecodePayload(ty, old(b.data))
  {
    if ty == TYPE_HELLO {
      if |b.data| < 9 { return Err(Truncated); }
      FieldAfter(b.data, 8, 1);
      var id := b.GetLeField(8);
      var role := b.GetLeField(1);
      return Ok(Hello(id, role));
    } else if ty == TYPE_META {
      if |b.data| < 10 { return Err(Truncated); }
      r := DecodeMetaFields(b);
    } else if ty == TYPE_SYMBOL {
      if |b.data| < 12 { return Err(Truncated); }
      FieldAfter(b.data, 8, 4);
      var id := b.GetLeField(8);
      var esi := b.GetLeField(4);
      return Ok(Symbol(id, esi, b.data));
    } else if ty == TYPE_DONE {
      if |b.data| < 8 { return Err(Truncated); }
      var id := b.GetLeField(8);
      return Ok(Done(id));
    } else if ty == TYPE_READY {
      if |b.data| < 8 { return Err(Truncated); }
      var id := b.GetLeField(8);
      return Ok(Ready(id));
    } else if ty == TYPE_DIRECT {
      if |b.data| < 10 { return Err(Truncated); }
      r := DecodeDirectFields(b);
    } else {
      return Err(InvalidType(ty));
    }
  }

  method DecodeDirectFields(b: ByteBuf) returns (r: Decoded)
    requires |b.data| >= 10
    modifies b
    ensures r == DecodeDirect(Field(old(b.data), 0, 8), Field(old(b.data), 8, 2), old(b.data)[10..])
  {
    FieldAfter(b.data, 8, 2);
    var id := b.GetLeField(8);
    var addrLen := b.GetLeField(2);
    if |b.data| < addrLen { return Err(Truncated); }
    var addr := b.SplitTo(addrLen);
    if !Utf8(addr) { return Err(InvalidFilename); }
    return Ok(Direct(id, addr));
  }

  method DecodeMetaFields(b: ByteBuf) returns (r: Decoded)
    requires |b.data| >= 10
    modifies b
    ensures r == DecodeMeta(Field(old(b.data), 0, 8), Field(old(b.data), 8, 2), old(b.data)[10..])
  {
    FieldAfter(b.data, 8, 2);
    var id := b.GetLeField(8);
    var nameLen := b.GetLeField(2);
    if |b.data| < nameLen + 20 { return Err(Truncated); }
    var name := b.SplitTo(nameLen);
    if !Utf8(name) { return Err(InvalidFilename); }
    if |b.data| < 24 { return Panicked; }
    FieldAfter(b.data, 8, 4);
    FieldAfter(b.data, 12, 4);
    FieldAfter(b.data, 16, 8);
    var size := b.GetLeField(8);
    var symbolSize := b.GetLeField(4);
    var k := b.GetLeField(4);
    var checksum := b.GetLeField(8);
    return Ok(Meta(id, name, size, symbolSize, k, checksum));
  }
}
