/** Multi-path scheduler (crates/orbit-transport/src/scheduler.rs), with the
    relay share p/q kept as an exact fraction. */
module Scheduler {
  import opened Options
  import Precode

  /** Whether symbol `seq` goes to a relay: the fractional part of seq*p/q is below p/q. */
  predicate ToRelay(p: nat, q: nat, n: nat)
    requires q > 0
  {
    (n * p) % q < p
  }

  class MultiPathScheduler {
    var p: nat
    var q: nat
    var nRelays: nat
    var nextRelay: nat

    ghost predicate Valid()
      reads this
    {
      q > 0 && p <= q && nRelays >= 1 && nextRelay < nRelays
    }

    constructor (p2pBw: nat, relayBw: nat)
      ensures Valid() && nRelays == 1 && nextRelay == 0
      ensures if p2pBw + relayBw == 0 then p == 1 && q == 2 else p == relayBw && q == p2pBw + relayBw
    {
      var total := p2pBw + relayBw;
      if total == 0 { p, q := 1, 2; } else { p, q := relayBw, total; }
      nRelays, nextRelay := 1, 0;
    }

    method WithRelays(n: nat)
      requires Valid() && nextRelay == 0
      modifies this
      ensures Valid() && p == old(p) && q == old(q) && nextRelay == 0
      ensures nRelays == if n < 1 then 1 else n
    {
      nRelays := if n < 1 then 1 else n;
    }

    method Pick(n: nat) returns (path: Option<nat>)
      requires Valid()
      modifies this`nextRelay
      ensures Valid()
      ensures path == Choice(p, q, n, old(nextRelay))
      ensures nextRelay == Advance(p, q, nRelays, n, old(nextRelay))
    {
      var slot := (n * p) % q;
      if slot < p {
        var i := nextRelay;
        nextRelay := (nextRelay + 1) % nRelays;
        return Some(i);
      }
      return None;
    }
  }

  function Choice(p: nat, q: nat, n: nat, next: nat): Option<nat>
    requires q > 0
  {
    if ToRelay(p, q, n) then Some(next) else None
  }

  function Advance(p: nat, q: nat, nRelays: nat, n: nat, next: nat): nat
    requires q > 0 && nRelays > 0
  {
    if ToRelay(p, q, n) then (next + 1) % nRelays else next
  }

  // ---- The relay share ----

  /** Relay picks among symbols 0..n-1. */
  function RelayPicks(p: nat, q: nat, n: nat): nat
    requires q > 0
  {
    if n == 0 then 0 else RelayPicks(p, q, n - 1) + if ToRelay(p, q, n - 1) then 1 else 0
  }

  lemma QuotientIs(x: nat, q: nat, d: nat, r: nat)
    requires q > 0 && r < q && x == d * q + r
    ensures x / q == d && x % q == r
  {
    var e := x / q;
    assert x == e * q + x % q;
    if e < d {
      Precode.MulMonotone(e + 1, d, q);
      Precode.Distribute(e, 1, q);
      assert false;
    }
    if e > d {
      Precode.MulMonotone(d + 1, e, q);
      Precode.Distribute(d, 1, q);
      assert false;
    }
  }

  /** Adding p <= q steps over a multiple of q exactly when the new remainder is below p. */
  lemma StepsOver(x: nat, p: nat, q: nat)
    requires 0 < q && p <= q
    ensures (x + p) / q == x / q + if (x + p) % q < p then 1 else 0
  {
    var d, r := x / q, x % q;
    assert x == d * q + r;
    if r + p < q {
      QuotientIs(x + p, q, d, r + p);
    } else {
      Precode.Distribute(d, 1, q);
      QuotientIs(x + p, q, d + 1, r + p - q);
    }
  }

  /** The closed form: after n >= 1 symbols floor((n-1)p/q) + 1 went to relays. */
  lemma {:induction false} RelayPicksExact(p: nat, q: nat, n: nat)
    requires 0 < p <= q && n >= 1
    ensures RelayPicks(p, q, n) == ((n - 1) * p) / q + 1
  {
    if n == 1 {
      assert RelayPicks(p, q, 0) == 0 && 0 * p == 0;
      QuotientIs(0, q, 0, 0);
    } else {
      RelayPicksExact(p, q, n - 1);
      Precode.Distribute(n - 2, 1, p);
      StepsOver((n - 2) * p, p, q);
    }
  }

  /** The relay share never drifts by a whole symbol from n*p/q. */
  lemma ShareWithinOne(p: nat, q: nat, n: nat)
    requires 0 < q && p <= q
    ensures RelayPicks(p, q, n) * q < n * p + q
    ensures n * p < RelayPicks(p, q, n) * q + q
  {
    if p == 0 {
      NoRelayPicks(q, n);
    } else if n >= 1 {
      RelayPicksExact(p, q, n);
      var x := (n - 1) * p;
      var d := x / q;
      assert x == d * q + x % q;
      Precode.Distribute(n - 1, 1, p);
      Precode.Distribute(d, 1, q);
    }
  }

  lemma {:induction false} NoRelayPicks(q: nat, n: nat)
    requires q > 0
    ensures RelayPicks(0, q, n) == 0
  {
    if n > 0 { NoRelayPicks(q, n - 1); }
  }

  // ---- Fairness between relays ----

  /** The relays chosen for a sequence of pick calls, whatever the symbols asked
      about: a refused symbol is picked for again. */
  function Chosen(p: nat, q: nat, nRelays: nat, asked: seq<nat>, next: nat): seq<nat>
    requires q > 0 && nRelays > 0
    decreases |asked|
  {
    if asked == [] then []
    else
      var rest := Chosen(p, q, nRelays, asked[1..], Advance(p, q, nRelays, asked[0], next));
      match Choice(p, q, asked[0], next)
      case Some(i) => [i] + rest
      case None => rest
  }

  function CountOf(picks: seq<nat>, relay: nat): nat {
    if picks == [] then 0 else (if picks[0] == relay then 1 else 0) + CountOf(picks[1..], relay)
  }

  /** Round robin from `next`: relay `r` has had its turn one time more than
      relay `s` exactly when `r` comes before `s` in the current lap. */
  lemma {:induction false} RoundRobin(p: nat, q: nat, nRelays: nat, asked: seq<nat>, next: nat, r: nat, s: nat)
    requires q > 0 && next < nRelays && r < nRelays && s < nRelays
    ensures var a, b := CountOf(Chosen(p, q, nRelays, asked, next), r), CountOf(Chosen(p, q, nRelays, asked, next), s);
            && a <= b + 1 && b <= a + 1
            && (Before(nRelays, next, r, s) ==> b <= a)
    decreases |asked|
  {
    if asked != [] {
      var after := Advance(p, q, nRelays, asked[0], next);
      var rest := Chosen(p, q, nRelays, asked[1..], after);
      NextTurn(nRelays, next);
      RoundRobin(p, q, nRelays, asked[1..], after, r, s);
      if ToRelay(p, q, asked[0]) {
        RoundRobin(p, q, nRelays, asked[1..], after, s, r);
        CountNext(next, rest, r);
        CountNext(next, rest, s);
      }
    }
  }

  lemma NextTurn(nRelays: nat, next: nat)
    requires next < nRelays
    ensures (next + 1) % nRelays == if next + 1 == nRelays then 0 else next + 1
  {
    if next + 1 < nRelays {
      QuotientIs(next + 1, nRelays, 0, next + 1);
    } else {
      QuotientIs(nRelays, nRelays, 1, 0);
    }
  }

  lemma CountNext(i: nat, rest: seq<nat>, relay: nat)
    ensures CountOf([i] + rest, relay) == (if i == relay then 1 else 0) + CountOf(rest, relay)
  {
    assert ([i] + rest)[1..] == rest;
  }

  /** Turns from `next` until relay `r`. */
  function Turn(nRelays: nat, next: nat, r: nat): nat
    requires next < nRelays && r < nRelays
  {
    if r >= next then r - next else r + nRelays - next
  }

  predicate Before(nRelays: nat, next: nat, r: nat, s: nat)
    requires next < nRelays && r < nRelays && s < nRelays
  {
    Turn(nRelays, next, r) <= Turn(nRelays, next, s)
  }

  /** After any sequence of pick calls the loads of two relays differ by at most one. */
  lemma LoadsDifferByAtMostOne(p: nat, q: nat, nRelays: nat, asked: seq<nat>, r: nat, s: nat)
    requires q > 0 && r < nRelays && s < nRelays
    ensures CountOf(Chosen(p, q, nRelays, asked, 0), r) <= CountOf(Chosen(p, q, nRelays, asked, 0), s) + 1
  {
    RoundRobin(p, q, nRelays, asked, 0, r, s);
  }
}
