/** The reading end of the direct link (crates/orbit-transport/src/direct.rs
    lines 47-65, crates/orbit-transport/src/session.rs lines 429-441): each
    message is read with a fresh buffer, so bytes read behind its frame are lost. */
module DirectLink {
  import opened Bytes
  import opened Wire
  import opened Framing

  /** What the reader task has delivered, the buffer of the call in progress, and
      whether it still reads. */
  datatype Link = Link(msgs: seq<Message>, buf: Bytes, alive: bool)

  const FRESH: Link := Link([], [], true)

  /** One read: an empty one ends the stream, a frame that does not parse ends the reading. */
  function OnRead(l: Link, chunk: Bytes): Link {
    if !l.alive then l
    else if chunk == [] then l.(alive := false)
    else
      match ParseResult(l.buf + chunk)
      case Incomplete => l.(buf := l.buf + chunk)
      case Frame(Ok(m)) => Link(l.msgs + [m], [], true)
      case _ => l.(alive := false)
  }

  function ReadAll(chunks: seq<Bytes>): Link {
    if chunks == [] then FRESH else OnRead(ReadAll(chunks[..|chunks| - 1]), chunks[|chunks| - 1])
  }

  // ---- The reader as the source has it ----

  /** Reads still to come from the socket. */
  class DirectReader {
    var incoming: seq<Bytes>

    constructor (chunks: seq<Bytes>)
      ensures incoming == chunks
    {
      incoming := chunks;
    }

    /** One call: a fresh buffer, filled until one frame is complete. */
    method RecvFrames(ghost l: Link) returns (m: Decoded, got: bool, ghost used: seq<Bytes>, ghost after: Link)
      requires l.alive && l.buf == []
      modifies this
      ensures old(incoming) == used + incoming
      ensures after == ReadOn(l, used)
      ensures got ==> m.Ok? && after == Link(l.msgs + [m.msg], [], true)
      ensures !got ==> after.msgs == l.msgs && (!after.alive || incoming == [])
    {
      var buf := new ByteBuf([]);
      used, after := [], l;
      m, got := Err(Truncated), false;
      while incoming != []
        invariant old(incoming) == used + incoming
        invariant after == ReadOn(l, used) && after == Link(l.msgs, buf.data, true) && fresh(buf)
        invariant ParseResult(buf.data) == Incomplete
        decreases |incoming|
      {
        var chunk := incoming[0];
        incoming := incoming[1..];
        assert (used + [chunk])[..|used|] == used;
        used, after := used + [chunk], OnRead(after, chunk);
        if chunk == [] { return; }
        buf.PutSlice(chunk);
        var p := buf.ParseFrame();
        match p {
          case Incomplete =>
          case TooLarge(_) => return;
          case Frame(r) =>
            if !r.Ok? { return; }
            return r, true, used, after;
        }
      }
    }

    /** The reader task: passes messages on until a call fails. */
    method ReadLoop() returns (msgs: seq<Message>)
      modifies this
      ensures msgs == ReadAll(old(incoming)).msgs
    {
      msgs := [];
      ghost var l, done := FRESH, [];
      while true
        invariant old(incoming) == done + incoming
        invariant l == ReadAll(done) && l == Link(msgs, [], true)
        decreases |incoming|
      {
        ghost var used, after;
        var m, got;
        m, got, used, after := RecvFrames(l);
        ReadOnIsReadAll(done, used);
        done, l := done + used, after;
        if !got { break; }
        msgs := msgs + [m.msg];
        assert used != [];
      }
      NothingMore(done, incoming);
    }
  }

  /** Further reads from a given state. */
  ghost function ReadOn(l: Link, chunks: seq<Bytes>): Link {
    if chunks == [] then l else OnRead(ReadOn(l, chunks[..|chunks| - 1]), chunks[|chunks| - 1])
  }

  lemma {:induction false} ReadOnIsReadAll(a: seq<Bytes>, b: seq<Bytes>)
    ensures ReadOn(ReadAll(a), b) == ReadAll(a + b)
  {
    if b == [] {
      assert a + b == a;
    } else {
      assert (a + b)[..|a + b| - 1] == a + b[..|b| - 1];
      ReadOnIsReadAll(a, b[..|b| - 1]);
    }
  }

  lemma {:induction false} NothingMore(a: seq<Bytes>, b: seq<Bytes>)
    requires !ReadAll(a).alive || b == []
    ensures ReadAll(a + b).msgs == ReadAll(a).msgs && (b != [] ==> !ReadAll(a + b).alive)
  {
    if b == [] {
      assert a + b == a;
    } else {
      assert (a + b)[..|a + b| - 1] == a + b[..|b| - 1];
      NothingMore(a, b[..|b| - 1]);
    }
  }

  // ---- Frames in a stream ----

  lemma {:induction false} EncodeAllSplit(ms: seq<Message>, i: nat)
    requires i <= |ms|
    ensures EncodeAll(ms) == EncodeAll(ms[..i]) + EncodeAll(ms[i..])
  {
    if i == 0 {
      assert ms[..0] == [] && ms[0..] == ms;
    } else {
      EncodeAllSplit(ms[1..], i - 1);
      EncodeAllNext(ms, i - 1);
      assert ms[1..][i - 1..] == ms[i..];
      Reassociate(Encode(ms[0]), EncodeAll(ms[1..][..i - 1]), EncodeAll(ms[i..]));
    }
  }

  lemma EncodeAllAppend(ms: seq<Message>, m: Message)
    ensures EncodeAll(ms + [m]) == EncodeAll(ms) + Encode(m)
  {
    EncodeAllSplit(ms + [m], |ms|);
    assert (ms + [m])[..|ms|] == ms && (ms + [m])[|ms|..] == [m];
    assert [m][1..] == [];
  }

  /** Where the `i`-th frame ends. */
  function EndOf(ms: seq<Message>, i: nat): nat
    requires i <= |ms|
  {
    |EncodeAll(ms[..i])|
  }

  /** Frame `i` lies between the ends of the frames before it and its own. */
  lemma FrameAt(ms: seq<Message>, i: nat, p: Bytes)
    requires i < |ms| && p <= EncodeAll(ms) && EndOf(ms, i) <= |p|
    ensures EndOf(ms, i + 1) == EndOf(ms, i) + |Encode(ms[i])|
    ensures |p| < EndOf(ms, i + 1) ==> p[EndOf(ms, i)..] < Encode(ms[i])
    ensures |p| == EndOf(ms, i + 1) ==> p[EndOf(ms, i)..] == Encode(ms[i])
  {
    EncodeAllSplit(ms, i);
    assert ms[i..][1..] == ms[i + 1..];
    EncodeAllAppend(ms[..i], ms[i]);
    assert ms[..i + 1] == ms[..i] + [ms[i]];
    var tail := p[EndOf(ms, i)..];
    assert tail <= Encode(ms[i]) + EncodeAll(ms[i + 1..]) by {
      assert EncodeAll(ms) == EncodeAll(ms[..i]) + (Encode(ms[i]) + EncodeAll(ms[i + 1..]));
      assert EncodeAll(ms)[EndOf(ms, i)..] == Encode(ms[i]) + EncodeAll(ms[i + 1..]);
    }
    PrefixOfAppend(tail, Encode(ms[i]), EncodeAll(ms[i + 1..]));
  }

  lemma NextEnd(ms: seq<Message>, i: nat)
    requires i < |ms|
    ensures EndOf(ms, i) + 5 <= EndOf(ms, i + 1)
  {
    EncodeAllAppend(ms[..i], ms[i]);
    TakeOneMore(ms, i);
  }

  lemma TakeOneMore(ms: seq<Message>, n: nat)
    requires n < |ms|
    ensures ms[..n + 1] == ms[..n] + [ms[n]]
  {}

  lemma {:induction false} EndsIncrease(ms: seq<Message>, i: nat, j: nat)
    requires i <= j <= |ms|
    ensures EndOf(ms, i) + (j - i) <= EndOf(ms, j)
    decreases j - i
  {
    if i < j {
      EndsIncrease(ms, i, j - 1);
      NextEnd(ms, j - 1);
    }
  }

  lemma {:induction false} FramesWithinGrows(ms: seq<Message>, a: nat, b: nat)
    requires a <= b
    ensures FramesWithin(ms, a) <= FramesWithin(ms, b)
  {
    if ms != [] && |Encode(ms[0])| <= a { FramesWithinGrows(ms[1..], a - |Encode(ms[0])|, b - |Encode(ms[0])|); }
  }

  // ---- Frames delivered are frames sent exactly when reads end at frame ends ----

  /** Some read ends after `n` bytes of the stream. */
  ghost predicate EndsAt(chunks: seq<Bytes>, n: nat) {
    exists j | 0 <= j <= |chunks| :: |Concat(chunks[..j])| == n
  }

  /** Every read that completes a frame ends at that frame's end. */
  ghost predicate Aligned(ms: seq<Message>, chunks: seq<Bytes>) {
    forall i | 0 <= i <= FramesWithin(ms, |Concat(chunks)|) :: EndsAt(chunks, EndOf(ms, i))
  }

  /** The reader has delivered the frames that arrived whole and holds the bytes after them. */
  ghost predicate Faithful(ms: seq<Message>, chunks: seq<Bytes>)
    requires Concat(chunks) <= EncodeAll(ms)
  {
    var p := Concat(chunks);
    var n := FramesWithin(ms, |p|);
    EndOf(ms, n) <= |p| && ReadAll(chunks) == Link(ms[..n], p[EndOf(ms, n)..], true)
  }

  lemma EndsEarlier(chunks: seq<Bytes>, n: nat)
    requires chunks != [] && chunks[|chunks| - 1] != [] && EndsAt(chunks, n)
    ensures n <= |Concat(chunks[..|chunks| - 1])| ==> EndsAt(chunks[..|chunks| - 1], n)
    ensures n > |Concat(chunks[..|chunks| - 1])| ==> n == |Concat(chunks)|
  {
    var before := chunks[..|chunks| - 1];
    var j :| 0 <= j <= |chunks| && |Concat(chunks[..j])| == n;
    if j < |chunks| {
      assert before[..j] == chunks[..j];
      PrefixOfConcat(before, j);
    } else {
      assert chunks[..j] == chunks;
    }
  }

  lemma EndsLater(chunks: seq<Bytes>, n: nat)
    requires chunks != [] && EndsAt(chunks[..|chunks| - 1], n)
    ensures EndsAt(chunks, n)
  {
    var before := chunks[..|chunks| - 1];
    var j :| 0 <= j <= |before| && |Concat(before[..j])| == n;
    assert chunks[..j] == before[..j];
  }

  lemma ReadPart(m: Message, l: Link, c: Bytes)
    requires Framable(m) && l.alive && c != [] && l.buf + c < Encode(m)
    ensures OnRead(l, c) == l.(buf := l.buf + c)
  {
    PartialFrame(m, l.buf + c);
  }

  lemma ReadWhole(m: Message, l: Link, c: Bytes)
    requires Framable(m) && l.alive && c != [] && l.buf + c == Encode(m)
    ensures OnRead(l, c) == Link(l.msgs + [m], [], true)
  {
    WholeFrame(m, []);
    assert Encode(m) + [] == Encode(m);
  }

  /** A read of an aligned stream completes one frame exactly, or none. */
  lemma AlignedCount(ms: seq<Message>, chunks: seq<Bytes>)
    requires chunks != [] && chunks[|chunks| - 1] != [] && Concat(chunks) <= EncodeAll(ms) && Aligned(ms, chunks)
    ensures var p, n0, n := Concat(chunks), FramesWithin(ms, |Concat(chunks[..|chunks| - 1])|), FramesWithin(ms, |Concat(chunks)|);
            && n0 < |ms|
            && ((n == n0 && |p| < EndOf(ms, n0 + 1)) || (n == n0 + 1 && |p| == EndOf(ms, n0 + 1)))
  {
    var q, p := Concat(chunks[..|chunks| - 1]), Concat(chunks);
    var n0, n := FramesWithin(ms, |q|), FramesWithin(ms, |p|);
    FramesWithinIsExact(ms, |q|);
    FramesWithinIsExact(ms, |p|);
    assert ms[..|ms|] == ms;
    FramesWithinGrows(ms, |q|, |p|);
    if n0 < n {
      EndsIncrease(ms, n0 + 1, n);
      assert EndsAt(chunks, EndOf(ms, n0 + 1));
      EndsEarlier(chunks, EndOf(ms, n0 + 1));
    }
  }

  /** One read in frame `m` after the messages `done`. */
  lemma ReadInFrame(m: Message, done: seq<Message>, q: Bytes, c: Bytes, start: nat, end: nat)
    requires Framable(m) && c != [] && start <= |q| && |q + c| <= end
    requires |q + c| < end ==> (q + c)[start..] < Encode(m)
    requires |q + c| == end ==> (q + c)[start..] == Encode(m)
    ensures OnRead(Link(done, q[start..], true), c)
         == if |q + c| < end then Link(done, (q + c)[start..], true) else Link(done + [m], [], true)
  {
    DropAppend(q, c, start);
    if |q + c| < end {
      ReadPart(m, Link(done, q[start..], true), c);
    } else {
      ReadWhole(m, Link(done, q[start..], true), c);
    }
  }

  /** One read of an aligned stream: part of a frame, or the end of one. */
  lemma AlignedRead(ms: seq<Message>, chunks: seq<Bytes>)
    requires forall i | 0 <= i < |ms| :: Framable(ms[i])
    requires chunks != [] && chunks[|chunks| - 1] != [] && Concat(chunks) <= EncodeAll(ms)
    requires Concat(chunks[..|chunks| - 1]) <= EncodeAll(ms) && Faithful(ms, chunks[..|chunks| - 1])
    requires Aligned(ms, chunks)
    ensures Faithful(ms, chunks)
  {
    var q, c, p := Concat(chunks[..|chunks| - 1]), chunks[|chunks| - 1], Concat(chunks);
    var n0 := FramesWithin(ms, |q|);
    AlignedCount(ms, chunks);
    FrameAt(ms, n0, p);
    ReadInFrame(ms[n0], ms[..n0], q, c, EndOf(ms, n0), EndOf(ms, n0 + 1));
    TakeOneMore(ms, n0);
    assert |p| == EndOf(ms, n0 + 1) ==> p[EndOf(ms, n0 + 1)..] == [];
  }

  lemma DropAppend(q: Bytes, c: Bytes, e: nat)
    requires e <= |q|
    ensures (q + c)[e..] == q[e..] + c
  {}

  lemma AlignedBefore(ms: seq<Message>, chunks: seq<Bytes>)
    requires chunks != [] && chunks[|chunks| - 1] != [] && Aligned(ms, chunks)
    ensures Aligned(ms, chunks[..|chunks| - 1])
  {
    var before := chunks[..|chunks| - 1];
    var n0, n := FramesWithin(ms, |Concat(before)|), FramesWithin(ms, |Concat(chunks)|);
    FramesWithinIsExact(ms, |Concat(before)|);
    FramesWithinGrows(ms, |Concat(before)|, |Concat(chunks)|);
    forall i | 0 <= i <= n0
      ensures EndsAt(before, EndOf(ms, i))
    {
      EndsIncrease(ms, i, n0);
      assert EndsAt(chunks, EndOf(ms, i));
      EndsEarlier(chunks, EndOf(ms, i));
    }
  }

  lemma {:induction false} AlignedIsFaithful(ms: seq<Message>, chunks: seq<Bytes>)
    requires forall i | 0 <= i < |ms| :: Framable(ms[i])
    requires forall j | 0 <= j < |chunks| :: chunks[j] != []
    requires Concat(chunks) <= EncodeAll(ms) && Aligned(ms, chunks)
    ensures Faithful(ms, chunks)
  {
    if chunks == [] {
      NoFrameInNothing(ms);
    } else {
      PrefixOfConcat(chunks, |chunks| - 1);
      AlignedBefore(ms, chunks);
      AlignedIsFaithful(ms, chunks[..|chunks| - 1]);
      AlignedRead(ms, chunks);
    }
  }

  lemma NoFrameInNothing(ms: seq<Message>)
    ensures FramesWithin(ms, 0) == 0 && EndOf(ms, 0) == 0 && ms[..0] == []
  {}

  // ---- The converse, by counting bytes ----

  /** A decoded message encodes to no more bytes than were decoded. */
  lemma DecodedIsNoLonger(f: Bytes, m: Message)
    requires Decode(f) == Ok(m)
    ensures |Encode(m)| <= |f|
  {}

  /** Bytes accounted for by deliveries and the buffer. */
  function Kept(l: Link): nat { |EncodeAll(l.msgs)| + |l.buf| }

  /** A read keeps at most the bytes it brings. */
  lemma ReadKeeps(l: Link, c: Bytes)
    ensures Kept(OnRead(l, c)) <= Kept(l) + |c|
    ensures l.msgs <= OnRead(l, c).msgs && |OnRead(l, c).msgs| <= |l.msgs| + 1
    ensures OnRead(l, c).msgs != l.msgs ==> OnRead(l, c).buf == []
  {
    var b := l.buf + c;
    if l.alive && c != [] && ParseResult(b).Frame? && ParseResult(b).result.Ok? {
      var m := ParseResult(b).result.msg;
      DecodedIsNoLonger(b[..5 + Field(b, 1, 4)], m);
      EncodeAllAppend(l.msgs, m);
    }
  }

  lemma {:induction false} ReadsKeep(chunks: seq<Bytes>)
    ensures Kept(ReadAll(chunks)) <= |Concat(chunks)|
  {
    if chunks != [] {
      ReadsKeep(chunks[..|chunks| - 1]);
      ReadKeeps(ReadAll(chunks[..|chunks| - 1]), chunks[|chunks| - 1]);
    }
  }

  /** If no byte was lost, every delivered message ends where some read ends. */
  lemma {:induction false} NothingLostIsAligned(chunks: seq<Bytes>, i: nat)
    requires Kept(ReadAll(chunks)) == |Concat(chunks)| && i <= |ReadAll(chunks).msgs|
    ensures EndsAt(chunks, EndOf(ReadAll(chunks).msgs, i))
  {
    if chunks == [] {
      assert chunks[..0] == [];
    } else {
      var before, c := chunks[..|chunks| - 1], chunks[|chunks| - 1];
      var l, l' := ReadAll(before), ReadAll(chunks);
      ReadsKeep(before);
      ReadKeeps(l, c);
      if i <= |l.msgs| {
        NothingLostIsAligned(before, i);
        EndsLater(chunks, EndOf(l.msgs, i));
        assert l'.msgs[..i] == l.msgs[..i];
      } else {
        assert l'.msgs[..i] == l'.msgs;
        assert chunks[..|chunks|] == chunks;
      }
    }
  }

  lemma NothingLost(ms: seq<Message>, chunks: seq<Bytes>, n: nat)
    requires n <= |ms| && ReadAll(chunks).msgs == ms[..n] && Kept(ReadAll(chunks)) == |Concat(chunks)|
    requires n == FramesWithin(ms, |Concat(chunks)|)
    ensures Aligned(ms, chunks)
  {
    forall i | 0 <= i <= n
      ensures EndsAt(chunks, EndOf(ms, i))
    {
      NothingLostIsAligned(chunks, i);
      assert ms[..n][..i] == ms[..i];
    }
  }

  /** For every stream of framable messages, cut into reads in any way and up to
      any point: the messages delivered and the bytes held back are exactly the
      frames that arrived and the rest, if and only if every read that completes
      a frame ends at that frame's end. */
  lemma FaithfulIffAligned(ms: seq<Message>, chunks: seq<Bytes>)
    requires forall i | 0 <= i < |ms| :: Framable(ms[i])
    requires forall j | 0 <= j < |chunks| :: chunks[j] != []
    requires Concat(chunks) <= EncodeAll(ms)
    ensures Faithful(ms, chunks) <==> Aligned(ms, chunks)
  {
    if Aligned(ms, chunks) { AlignedIsFaithful(ms, chunks); }
    if Faithful(ms, chunks) { NothingLost(ms, chunks, FramesWithin(ms, |Concat(chunks)|)); }
  }

  /** A whole stream is delivered as it was sent if and only if it is aligned. */
  lemma DeliveredIffAligned(ms: seq<Message>, chunks: seq<Bytes>)
    requires forall i | 0 <= i < |ms| :: Framable(ms[i])
    requires forall j | 0 <= j < |chunks| :: chunks[j] != []
    requires Concat(chunks) == EncodeAll(ms)
    ensures ReadAll(chunks).msgs == ms <==> Aligned(ms, chunks)
  {
    FramesWithinAll(ms);
    assert ms[..|ms|] == ms;
    if Aligned(ms, chunks) { AlignedIsFaithful(ms, chunks); }
    if ReadAll(chunks).msgs == ms {
      ReadsKeep(chunks);
      NothingLost(ms, chunks, |ms|);
    }
  }

  lemma TwoReads(a: Bytes, b: Bytes)
    ensures Concat([a] + [b]) == a + b
    ensures ReadAll([a] + [b]) == OnRead(OnRead(FRESH, a), b)
  {
    assert ([a] + [b])[..1] == [a] && [a][..0] == [];
    assert Concat([a]) == a;
    assert ReadAll([a]) == OnRead(FRESH, a);
  }

  /** Whatever a read brings behind the first frame in it is lost. */
  lemma BytesBehindAreLost(m: Message, behind: Bytes)
    requires Framable(m)
    ensures OnRead(FRESH, Encode(m) + behind) == Link([m], [], true)
  {
    WholeFrame(m, behind);
    assert FRESH.buf + (Encode(m) + behind) == Encode(m) + behind;
  }

  lemma CarriedData(id: nat, esi: nat, data: Bytes)
    ensures |Encode(Symbol(id, esi, data))| == 17 + |data| && Encode(Symbol(id, esi, data))[17..] == data
  {}

  lemma TwoFrames(m: Message, n: Message)
    ensures EncodeAll([m, n]) == Encode(m) + Encode(n)
  {
    assert [m, n][1..] == [n] && [n][1..] == [];
    assert EncodeAll([n]) == Encode(n) + [];
  }

  /** A message nobody sent: the second frame carries the bytes of another frame as
      its data, and the first read ends where that data begins. */
  lemma StrayMessage(m: Message, id: nat, esi: nat, stray: Message)
    requires Framable(m) && Framable(stray) && Framable(Symbol(id, esi, Encode(stray)))
    ensures var carrier := Encode(Symbol(id, esi, Encode(stray)));
            |carrier| >= 17 &&
            var chunks := [Encode(m) + carrier[..17]] + [carrier[17..]];
            && Concat(chunks) == EncodeAll([m, Symbol(id, esi, Encode(stray))])
            && ReadAll(chunks).msgs == [m] + [stray]
  {
    var sent := Symbol(id, esi, Encode(stray));
    var carrier := Encode(sent);
    CarriedData(id, esi, Encode(stray));
    TwoFrames(m, sent);
    TwoReads(Encode(m) + carrier[..17], carrier[17..]);
    Reassociate(Encode(m), carrier[..17], carrier[17..]);
    assert carrier[..17] + carrier[17..] == carrier;
    BytesBehindAreLost(m, carrier[..17]);
    ReadWhole(stray, Link([m], [], true), carrier[17..]);
  }

  // ---- The same condition, read by read ----

  /** If the bytes complete a frame they end with it. */
  predicate WholeRead(b: Bytes) { ParseResult(b).Frame? ==> ParseRest(b) == [] }

  /** Every read that completes a frame in the reader's buffer ends with that frame. */
  ghost predicate WholeReads(chunks: seq<Bytes>) { forall j | 0 <= j < |chunks| :: WholeAt(chunks, j) }

  ghost predicate WholeAt(chunks: seq<Bytes>, j: nat)
    requires j < |chunks|
  {
    WholeRead(ReadAll(chunks[..j]).buf + chunks[j])
  }

  /** All reads are whole if the last one and those before it are. */
  lemma WholeReadsSplit(chunks: seq<Bytes>)
    requires chunks != []
    ensures var before, last := chunks[..|chunks| - 1], chunks[|chunks| - 1];
            WholeReads(chunks) <==> WholeReads(before) && WholeRead(ReadAll(before).buf + last)
  {
    var n := |chunks| - 1;
    var before := chunks[..n];
    forall j | 0 <= j < n
      ensures WholeAt(before, j) <==> WholeAt(chunks, j)
    {
      assert chunks[..j] == before[..j];
    }
    assert WholeAt(chunks, n) <==> WholeRead(ReadAll(before).buf + chunks[n]);
  }

  lemma SameRest(a: Bytes, x: Bytes, y: Bytes)
    requires a + x == a + y
    ensures x == y
  {
    assert (a + x)[|a|..] == x && (a + y)[|a|..] == y;
  }

  /** One whole read at the front of the frame of `m` and what follows it. */
  lemma ReadOfFrames(m: Message, after: Bytes, l: Link, c: Bytes, rest: Bytes)
    requires Framable(m) && l.alive && c != [] && (l.buf + c) + rest == Encode(m) + after && WholeRead(l.buf + c)
    ensures || (|l.buf + c| < |Encode(m)| && OnRead(l, c) == l.(buf := l.buf + c))
            || (|l.buf + c| == |Encode(m)| && OnRead(l, c) == Link(l.msgs + [m], [], true) && rest == after)
  {
    var b := l.buf + c;
    PrefixOfAppend(b, Encode(m), after);
    if |b| < |Encode(m)| {
      ReadPart(m, l, c);
    } else {
      WholeFrame(m, b[|Encode(m)|..]);
      assert b == Encode(m) + [];
      assert b == Encode(m);
      ReadWhole(m, l, c);
      SameRest(b, rest, after);
    }
  }

  lemma FramesWithinIs(ms: seq<Message>, x: nat, n: nat)
    requires n <= |ms| && EndOf(ms, n) <= x && (n < |ms| ==> x < EndOf(ms, n + 1))
    ensures FramesWithin(ms, x) == n
  {
    var k := FramesWithin(ms, x);
    FramesWithinIsExact(ms, x);
    if k < n { EndsIncrease(ms, k + 1, n); }
    if n < k { EndsIncrease(ms, n + 1, k); }
  }

  /** What the stream holds from the start of frame `i` on. */
  lemma FromFrame(ms: seq<Message>, i: nat, p: Bytes)
    requires i < |ms| && p <= EncodeAll(ms) && EndOf(ms, i) <= |p|
    ensures p[EndOf(ms, i)..] <= Encode(ms[i]) + EncodeAll(ms[i + 1..])
    ensures EndOf(ms, i + 1) == EndOf(ms, i) + |Encode(ms[i])|
  {
    EncodeAllSplit(ms, i);
    assert ms[i..][1..] == ms[i + 1..];
    assert EncodeAll(ms)[EndOf(ms, i)..] == Encode(ms[i]) + EncodeAll(ms[i + 1..]);
    EncodeAllAppend(ms[..i], ms[i]);
    TakeOneMore(ms, i);
  }

  lemma WholeReadEnds(ms: seq<Message>, q: Bytes, c: Bytes, n: nat)
    requires n < |ms| && Framable(ms[n]) && c != [] && q + c <= EncodeAll(ms) && EndOf(ms, n) <= |q|
    requires WholeRead(q[EndOf(ms, n)..] + c)
    ensures |q + c| <= EndOf(ms, n + 1)
  {
    FromFrame(ms, n, q + c);
    DropAppend(q, c, EndOf(ms, n));
    WholeReadStops(ms[n], EncodeAll(ms[n + 1..]), (q + c)[EndOf(ms, n)..]);
  }

  lemma {:induction false} SomeFrameLeft(ms: seq<Message>, x: nat)
    requires x < |EncodeAll(ms)|
    ensures FramesWithin(ms, x) < |ms|
  {
    if |Encode(ms[0])| <= x { SomeFrameLeft(ms[1..], x - |Encode(ms[0])|); }
  }

  lemma WholeReadIsFaithful(ms: seq<Message>, q: Bytes, c: Bytes)
    requires forall i | 0 <= i < |ms| :: Framable(ms[i])
    requires c != [] && q + c <= EncodeAll(ms) && EndOf(ms, FramesWithin(ms, |q|)) <= |q|
    requires WholeRead(q[EndOf(ms, FramesWithin(ms, |q|))..] + c)
    ensures var n0, n := FramesWithin(ms, |q|), FramesWithin(ms, |q + c|);
            && EndOf(ms, n) <= |q + c|
            && OnRead(Link(ms[..n0], q[EndOf(ms, n0)..], true), c) == Link(ms[..n], (q + c)[EndOf(ms, n)..], true)
  {
    var n0, p := FramesWithin(ms, |q|), q + c;
    SomeFrameLeft(ms, |q|);
    WholeReadEnds(ms, q, c, n0);
    FrameAt(ms, n0, p);
    ReadInFrame(ms[n0], ms[..n0], q, c, EndOf(ms, n0), EndOf(ms, n0 + 1));
    TakeOneMore(ms, n0);
    AfterFrame(ms, n0, |p|);
  }

  lemma AfterFrame(ms: seq<Message>, n: nat, x: nat)
    requires n < |ms| && EndOf(ms, n) <= x <= EndOf(ms, n + 1)
    ensures FramesWithin(ms, x) == if x < EndOf(ms, n + 1) then n else n + 1
  {
    if x < EndOf(ms, n + 1) {
      FramesWithinIs(ms, x, n);
    } else {
      if n + 1 < |ms| { NextEnd(ms, n + 1); }
      FramesWithinIs(ms, x, n + 1);
    }
  }

  lemma WholeReadStops(m: Message, after: Bytes, b: Bytes)
    requires Framable(m) && b <= Encode(m) + after && WholeRead(b)
    ensures |b| <= |Encode(m)|
  {
    if |b| >= |Encode(m)| {
      PrefixOfAppend(b, Encode(m), after);
      WholeFrame(m, b[|Encode(m)|..]);
    }
  }

  lemma {:induction false} WholeReadsAreFaithful(ms: seq<Message>, chunks: seq<Bytes>)
    requires forall i | 0 <= i < |ms| :: Framable(ms[i])
    requires forall j | 0 <= j < |chunks| :: chunks[j] != []
    requires Concat(chunks) <= EncodeAll(ms) && WholeReads(chunks)
    ensures Faithful(ms, chunks)
  {
    if chunks == [] {
      NoFrameInNothing(ms);
    } else {
      var before := chunks[..|chunks| - 1];
      PrefixOfConcat(chunks, |before|);
      WholeReadsSplit(chunks);
      WholeReadsAreFaithful(ms, before);
      WholeReadIsFaithful(ms, Concat(before), chunks[|before|]);
    }
  }

  /** A read that loses no byte is whole. */
  lemma LosslessIsWhole(l: Link, c: Bytes)
    requires l.alive && c != [] && Kept(OnRead(l, c)) == Kept(l) + |c|
    ensures WholeRead(l.buf + c)
  {
    var b := l.buf + c;
    if ParseResult(b).Frame? && ParseResult(b).result.Ok? {
      var m := ParseResult(b).result.msg;
      DecodedIsNoLonger(b[..5 + Field(b, 1, 4)], m);
      EncodeAllAppend(l.msgs, m);
    }
  }

  lemma {:induction false} AlignedReadsAreWhole(ms: seq<Message>, chunks: seq<Bytes>)
    requires forall i | 0 <= i < |ms| :: Framable(ms[i])
    requires forall j | 0 <= j < |chunks| :: chunks[j] != []
    requires Concat(chunks) <= EncodeAll(ms) && Aligned(ms, chunks)
    ensures WholeReads(chunks)
  {
    if chunks != [] {
      var before := chunks[..|chunks| - 1];
      PrefixOfConcat(chunks, |before|);
      AlignedBefore(ms, chunks);
      AlignedReadsAreWhole(ms, before);
      AlignedIsFaithful(ms, before);
      AlignedIsFaithful(ms, chunks);
      LosslessIsWhole(ReadAll(before), chunks[|before|]);
      WholeReadsSplit(chunks);
    }
  }

  /** The same equivalence with the condition read off the reader: what is delivered
      is what was sent if and only if every read that completes a frame ends with it. */
  lemma FaithfulIffWholeReads(ms: seq<Message>, chunks: seq<Bytes>)
    requires forall i | 0 <= i < |ms| :: Framable(ms[i])
    requires forall j | 0 <= j < |chunks| :: chunks[j] != []
    requires Concat(chunks) <= EncodeAll(ms)
    ensures Faithful(ms, chunks) <==> WholeReads(chunks)
  {
    FaithfulIffAligned(ms, chunks);
    if WholeReads(chunks) { WholeReadsAreFaithful(ms, chunks); }
    if Aligned(ms, chunks) { AlignedReadsAreWhole(ms, chunks); }
  }
}
