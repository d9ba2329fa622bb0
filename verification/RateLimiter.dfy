/** Token-bucket egress limiter (crates/orbit-relay/src/lib.rs lines 32-74), over
    real time and real-valued credit. */
module RateLimiter {

  /** Bytes per second for a rate in KiB/s. */
  function Rate(kbps: nat): real { kbps as real * 1024.0 }

  /** At most about ten milliseconds of credit. */
  function Cap(rate: real): real { rate / 100.0 }

  function MinReal(a: real, b: real): real { if a < b then a else b }

  /** Credit at the moment of a call. */
  function Credit(rate: real, tokens: real, last: real, now: real): real {
    MinReal(tokens + (now - last) * rate, Cap(rate))
  }

  /** Sleep asked for by a call. */
  function WaitFor(rate: real, credit: real, n: nat): (w: real)
    requires rate > 0.0
    ensures w >= 0.0
  {
    if credit >= n as real then 0.0
    else
      PositiveQuotient(n as real - credit, rate);
      (n as real - credit) / rate
  }

  lemma PositiveQuotient(a: real, b: real)
    requires a > 0.0 && b > 0.0
    ensures a / b > 0.0 && (a / b) * b == a
  {}

  /** Credit left after a call. */
  function TokensAfter(credit: real, n: nat): real {
    if credit >= n as real then credit - n as real else 0.0
  }

  /** What a call does to its caller: a sleep, or an abort on an infinite duration. */
  datatype Pause = Sleep(seconds: real) | Panicked

  function PauseFor(kbps: nat, credit: real, n: nat): Pause {
    if credit >= n as real then Sleep(0.0)
    else if kbps == 0 then Panicked
    else Sleep(WaitFor(Rate(kbps), credit, n))
  }

  class Limiter {
    var kbps: nat
    var tokens: real
    var last: real

    ghost predicate Valid()
      reads this
    {
      0.0 <= tokens <= Cap(Rate(kbps))
    }

    constructor (kbps0: nat, now: real)
      ensures Valid() && kbps == kbps0 && tokens == 0.0 && last == now
    {
      kbps, tokens, last := kbps0, 0.0, now;
    }

    /** Charges `n` bytes at time `now`; the caller then sleeps.  The time slept is
        credited to the next call, because `last` stays at `now`. */
    method ThrottleBytes(n: nat, now: real) returns (pause: Pause)
      requires Valid() && now >= last
      modifies this
      ensures Valid() && kbps == old(kbps) && last == now
      ensures var credit := Credit(Rate(kbps), old(tokens), old(last), now);
              tokens == TokensAfter(credit, n) && pause == PauseFor(kbps, credit, n)
      ensures pause == Panicked <==> kbps == 0 && n > 0
    {
      var rate := Rate(kbps);
      var cap := Cap(rate);
      NonNegativeProduct(now - last, rate);
      tokens := MinReal(tokens + (now - last) * rate, cap);
      last := now;
      if tokens >= n as real {
        tokens := tokens - n as real;
        return Sleep(0.0);
      }
      if kbps == 0 {
        tokens := 0.0;
        return Panicked;
      }
      var wait := (n as real - tokens) / rate;
      tokens := 0.0;
      return Sleep(wait);
    }
  }

  lemma NonNegativeProduct(a: real, b: real)
    requires a >= 0.0 && b >= 0.0
    ensures a * b >= 0.0
  {}

  /** A limiter idle for ten milliseconds or more lets through what it can send in
      ten milliseconds without sleeping, and no byte more. */
  lemma IdleBurst(kbps: nat, tokens: real, last: real, now: real, n: nat)
    requires kbps > 0 && 0.0 <= tokens <= Cap(Rate(kbps)) && now - last >= 0.01
    ensures PauseFor(kbps, Credit(Rate(kbps), tokens, last, now), n) == Sleep(0.0) <==> n as real <= kbps as real * 10.24
  {
    var rate := Rate(kbps);
    CapIs(kbps);
    IdleIsFull(rate, tokens, last, now);
    var credit := Credit(rate, tokens, last, now);
    if credit < n as real { PositiveQuotient(n as real - credit, rate); }
  }

  lemma CapIs(kbps: nat)
    ensures Cap(Rate(kbps)) == kbps as real * 10.24
  {}

  /** After ten idle milliseconds the credit is at its cap. */
  lemma IdleIsFull(rate: real, tokens: real, last: real, now: real)
    requires rate > 0.0 && tokens >= 0.0 && now - last >= 0.01
    ensures Credit(rate, tokens, last, now) == Cap(rate)
  {
    var idle := now - last;
    MoreIdleIsMore(rate, idle);
    Topped(tokens, rate, idle);
  }

  lemma Topped(tokens: real, rate: real, idle: real)
    requires tokens >= 0.0 && idle * rate >= Cap(rate)
    ensures MinReal(tokens + idle * rate, Cap(rate)) == Cap(rate)
  {}

  lemma MoreIdleIsMore(rate: real, idle: real)
    requires idle >= 0.01 && rate > 0.0
    ensures idle * rate >= Cap(rate)
  {
    var more := idle - 0.01;
    NonNegativeProduct(more, rate);
    assert idle * rate == (more + 0.01) * rate == more * rate + 0.01 * rate;
  }

  // ---- Runs ----

  datatype Call = Call(bytes: nat, now: real)

  /** Calls made one after the other: none before the previous sleep is over. */
  ghost predicate Paced(rate: real, tokens: real, last: real, ready: real, calls: seq<Call>)
    requires rate > 0.0
    decreases |calls|
  {
    calls != [] ==>
      var c := calls[0];
      var credit := Credit(rate, tokens, last, c.now);
      && c.now >= ready
      && Paced(rate, TokensAfter(credit, c.bytes), c.now, c.now + WaitFor(rate, credit, c.bytes), calls[1..])
  }

  /** When the last sleep of the run is over. */
  ghost function EndOf(rate: real, tokens: real, last: real, ready: real, calls: seq<Call>): real
    requires rate > 0.0
    decreases |calls|
  {
    if calls == [] then ready
    else
      var c := calls[0];
      var credit := Credit(rate, tokens, last, c.now);
      EndOf(rate, TokensAfter(credit, c.bytes), c.now, c.now + WaitFor(rate, credit, c.bytes), calls[1..])
  }

  function TotalBytes(calls: seq<Call>): real {
    if calls == [] then 0.0 else calls[0].bytes as real + TotalBytes(calls[1..])
  }

  /** One call on a clock that ticks once per byte: what it releases is paid by
      earlier credit, elapsed time and the sleep asked for. */
  lemma CallIsPaid(rate: real, tokens: real, last: real, ready: real, c: Call, lastB: real, readyB: real)
    returns (nowB: real, waitB: real)
    requires rate > 0.0 && last <= ready <= c.now
    requires lastB == rate * last && readyB == rate * ready
    ensures var credit := Credit(rate, tokens, last, c.now);
            && nowB == rate * c.now
            && nowB + waitB == rate * (c.now + WaitFor(rate, credit, c.bytes))
            && c.bytes as real + TokensAfter(credit, c.bytes) <= tokens + (nowB - lastB) + waitB
            && readyB <= nowB && waitB >= 0.0
  {
    var credit := Credit(rate, tokens, last, c.now);
    nowB := rate * c.now;
    assert (c.now - last) * rate == nowB - lastB;
    NonNegativeProduct(rate, c.now - ready);
    if credit >= c.bytes as real {
      waitB := 0.0;
    } else {
      waitB := c.bytes as real - credit;
      PositiveQuotient(waitB, rate);
      assert rate * (c.now + waitB / rate) == nowB + waitB;
    }
  }

  /** Each tick counts at most twice: once as elapsed time, once as time slept. */
  lemma {:induction false} RunIsPaid(rate: real, tokens: real, last: real, ready: real, calls: seq<Call>, lastB: real, readyB: real)
    returns (endB: real)
    requires rate > 0.0 && Paced(rate, tokens, last, ready, calls) && tokens >= 0.0 && last <= ready
    requires lastB == rate * last && readyB == rate * ready && lastB <= readyB
    ensures endB == rate * EndOf(rate, tokens, last, ready, calls) && endB >= readyB
    ensures TotalBytes(calls) <= tokens + (endB - lastB) + (endB - readyB)
    decreases |calls|
  {
    if calls == [] {
      endB := readyB;
    } else {
      var c := calls[0];
      var credit := Credit(rate, tokens, last, c.now);
      var nowB, waitB := CallIsPaid(rate, tokens, last, ready, c, lastB, readyB);
      endB := RunIsPaid(rate, TokensAfter(credit, c.bytes), c.now, c.now + WaitFor(rate, credit, c.bytes), calls[1..],
                        nowB, nowB + waitB);
    }
  }

  lemma Spread(rate: real, a: real, b: real)
    ensures rate * (a - b) == rate * a - rate * b
  {}

  /** Over every run from a fresh limiter, at most twice rate times elapsed time
      is released by the end of the last sleep. */
  lemma AtMostTwiceTheRate(rate: real, start: real, calls: seq<Call>)
    requires rate > 0.0 && Paced(rate, 0.0, start, start, calls)
    ensures TotalBytes(calls) <= 2.0 * (rate * (EndOf(rate, 0.0, start, start, calls) - start))
  {
    var endB := RunIsPaid(rate, 0.0, start, start, calls, rate * start, rate * start);
    Spread(rate, EndOf(rate, 0.0, start, start, calls), start);
  }

  /** `m` pairs of calls for `n` bytes: the second of a pair comes `w` seconds after
      the first, the next pair right with it. */
  ghost function Pairs(n: nat, w: real, start: real, m: nat): seq<Call>
    decreases m
  {
    if m == 0 then [] else [Call(n, start), Call(n, start + w)] + Pairs(n, w, start + w, m - 1)
  }

  /** One pair: the first call sleeps for all of its bytes, the second finds that
      sleep credited and does not sleep; the bucket ends as it began. */
  lemma PairReturns(rate: real, n: nat, w: real, start: real)
    requires rate > 0.0 && 0 < n && n as real <= Cap(rate) && w == n as real / rate
    ensures w > 0.0
    ensures Credit(rate, 0.0, start, start) == 0.0 && TokensAfter(0.0, n) == 0.0 && WaitFor(rate, 0.0, n) == w
    ensures Credit(rate, 0.0, start, start + w) == n as real
    ensures TokensAfter(n as real, n) == 0.0 && WaitFor(rate, n as real, n) == 0.0
  {
    PositiveQuotient(n as real, rate);
    assert start + w - start == w;
  }

  lemma TwoCalls(rate: real, n: nat, w: real, start: real, rest: seq<Call>)
    requires rate > 0.0 && 0 < n && n as real <= Cap(rate) && w == n as real / rate
    ensures var t := start + w;
            var calls := [Call(n, start), Call(n, t)] + rest;
            && (Paced(rate, 0.0, start, start, calls) <==> Paced(rate, 0.0, t, t, rest))
            && EndOf(rate, 0.0, start, start, calls) == EndOf(rate, 0.0, t, t, rest)
            && TotalBytes(calls) == n as real + n as real + TotalBytes(rest)
  {
    PairReturns(rate, n, w, start);
    var first, second := Call(n, start), Call(n, start + w);
    assert ([first, second] + rest)[1..] == [second] + rest;
    assert ([second] + rest)[1..] == rest;
  }

  /** `x` added up `m` times. */
  ghost function Repeat(m: nat, x: real): real { if m == 0 then 0.0 else x + Repeat(m - 1, x) }

  /** `m` pairs take m sleeps and release 2*m*n bytes. */
  lemma {:induction false} PairsRun(rate: real, n: nat, w: real, start: real, m: nat)
    requires rate > 0.0 && 0 < n && n as real <= Cap(rate) && w == n as real / rate
    ensures Paced(rate, 0.0, start, start, Pairs(n, w, start, m))
    ensures EndOf(rate, 0.0, start, start, Pairs(n, w, start, m)) == start + Repeat(m, w)
    ensures TotalBytes(Pairs(n, w, start, m)) == Repeat(m, n as real) + Repeat(m, n as real)
    decreases m
  {
    if m > 0 {
      PairsRun(rate, n, w, start + w, m - 1);
      TwoCalls(rate, n, w, start, Pairs(n, w, start + w, m - 1));
    }
  }

  lemma {:induction false} RepeatScaled(rate: real, w: real, size: real, m: nat)
    requires rate * w == size
    ensures rate * Repeat(m, w) == Repeat(m, size)
  {
    if m > 0 {
      RepeatScaled(rate, w, size, m - 1);
      assert rate * (w + Repeat(m - 1, w)) == rate * w + rate * Repeat(m - 1, w);
    }
  }

  lemma Elapsed(rate: real, start: real, end: real, r: real)
    requires end == start + r
    ensures rate * (end - start) == rate * r
  {
    assert end - start == r;
  }

  /** The factor 2 is attained by runs of any length: `m` pairs of small calls are
      well paced and release exactly twice rate times elapsed time, so the
      long-term rate is twice `rate`. */
  lemma TwiceTheRateIsAttained(rate: real, start: real, n: nat, m: nat)
    requires rate > 0.0 && 0 < n && n as real <= Cap(rate)
    ensures var calls := Pairs(n, n as real / rate, start, m);
            var elapsed := EndOf(rate, 0.0, start, start, calls) - start;
            && Paced(rate, 0.0, start, start, calls)
            && TotalBytes(calls) == 2.0 * (rate * elapsed)
            && TotalBytes(calls) == 2.0 * Repeat(m, n as real)
  {
    var w := n as real / rate;
    PairsRun(rate, n, w, start, m);
    PositiveQuotient(n as real, rate);
    RepeatScaled(rate, w, n as real, m);
    Elapsed(rate, start, EndOf(rate, 0.0, start, start, Pairs(n, w, start, m)), Repeat(m, w));
  }
}
