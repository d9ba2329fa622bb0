/** Ghost counters of the decoder's work: block XORs, visits of index entries, and
    inputs put in the ripple queue (crates/orbit-fountain/src/decoder.rs lines 37-45
    and 162-190). */
module DecoderMeter {
  import opened NatSets
  import opened XorKernel
  import opened PeelingSpec
  import opened ReverseIndex

  /** An index entry: an input and a slot listed under it. */
  type Edge = (nat, nat)

  /** The entries whose input was popped, and all entries ever listed. */
  datatype Ledger = Ledger(visited: set<Edge>, listed: set<Edge>)

  /** Every entry of the index was listed and not yet visited; every visit went to
      an entry of its own; slots below `n` only. */
  ghost predicate EdgesPaid(visits: nat, m: Ledger, rev: Index, n: nat) {
    && visits == |m.visited| && m.visited <= m.listed
    && (forall p | p in m.listed :: p.1 < n)
    && (forall x: nat, i: nat | Lists(rev, x, i) :: (x, i) in m.listed && (x, i) !in m.visited)
  }

  /** The log holds each resolved input exactly once. */
  ghost predicate Logged(queued: seq<nat>, resolved: map<nat, Block>) {
    Elements(queued) == resolved.Keys && |queued| == |resolved|
  }

  /** As many entries as distinct ones: no entry comes twice. */
  lemma {:induction false} NoRepeats(s: seq<nat>)
    requires |Elements(s)| == |s|
    ensures forall i, j | 0 <= i < j < |s| :: s[i] != s[j]
  {
    if s != [] {
      var rest, last := s[..|s| - 1], s[|s| - 1];
      assert s == rest + [last];
      assert Elements(s) == Elements(rest) + {last};
      ElementsAtMost(rest);
      NoRepeats(rest);
      forall i, j | 0 <= i < j < |s|
        ensures s[i] != s[j]
      {
        if j == |s| - 1 { assert rest[i] in Elements(rest); }
      }
    }
  }

  lemma {:induction false} ElementsAtMost(s: seq<nat>)
    ensures |Elements(s)| <= |s|
  {
    if s != [] {
      ElementsAtMost(s[..|s| - 1]);
      assert s == s[..|s| - 1] + [s[|s| - 1]];
      assert Elements(s) == Elements(s[..|s| - 1]) + {s[|s| - 1]};
    }
  }

  lemma LogOneMore(queued: seq<nat>, resolved: map<nat, Block>, x: nat, b: Block)
    requires Logged(queued, resolved) && x !in resolved
    ensures Logged(queued + [x], resolved[x := b])
  {
    assert Elements(queued + [x]) == Elements(queued) + {x};
    assert resolved[x := b].Keys == resolved.Keys + {x};
  }

  /** The entries of `slots` under `r`. */
  ghost function EdgesOf(r: nat, slots: seq<nat>): set<Edge> {
    if slots == [] then {} else EdgesOf(r, slots[..|slots| - 1]) + {(r, slots[|slots| - 1])}
  }

  /** After visiting all entries of a popped input. */
  ghost function Swept(m: Ledger, r: nat, slots: seq<nat>): Ledger { m.(visited := m.visited + EdgesOf(r, slots)) }

  lemma {:induction false} InEdges(r: nat, slots: seq<nat>, p: Edge)
    ensures p in EdgesOf(r, slots) <==> p.0 == r && p.1 in slots
  {
    if slots != [] {
      InEdges(r, slots[..|slots| - 1], p);
      assert slots == slots[..|slots| - 1] + [slots[|slots| - 1]];
    }
  }

  lemma {:induction false} EdgesCount(r: nat, slots: seq<nat>, n: nat)
    requires Ascends(slots, n)
    ensures |EdgesOf(r, slots)| == |slots|
  {
    if slots != [] {
      EdgesCount(r, slots[..|slots| - 1], n);
      InEdges(r, slots[..|slots| - 1], (r, slots[|slots| - 1]));
    }
  }

  /** Popping `r` and visiting its entries: each was unvisited, and none is left. */
  lemma SweptIsPaid(visits: nat, m: Ledger, rev: Index, r: nat, slots: seq<nat>, n: nat)
    requires EdgesPaid(visits, m, rev, n) && Ascends(slots, n) && slots == if r in rev then rev[r] else []
    ensures EdgesPaid(visits + |slots|, Swept(m, r, slots), rev - {r}, n)
  {
    EdgesCount(r, slots, n);
    forall p | p in EdgesOf(r, slots)
      ensures p in m.listed && p !in m.visited
    {
      InEdges(r, slots, p);
      assert Lists(rev, p.0, p.1);
    }
    DisjointSizes(m.visited, EdgesOf(r, slots));
    forall x: nat, i: nat | Lists(rev - {r}, x, i)
      ensures (x, i) in m.listed && (x, i) !in Swept(m, r, slots).visited
    {
      assert Lists(rev, x, i) && x != r;
      InEdges(r, slots, (x, i));
    }
  }

  lemma DisjointSizes<T>(a: set<T>, b: set<T>)
    requires a !! b
    ensures |a + b| == |a| + |b|
  {}

  /** Listing the new slot `n` under one more input. */
  ghost function ListedOne(m: Ledger, x: nat, n: nat): Ledger { m.(listed := m.listed + {(x, n)}) }

  /** While slot `n` is being listed: entries of slot `n` only under inputs done. */
  ghost predicate EdgesListing(visits: nat, m: Ledger, rev: Index, n: nat, done: set<nat>) {
    && visits == |m.visited| && m.visited <= m.listed
    && (forall p | p in m.listed :: p.1 < n || (p.1 == n && p.0 in done))
    && (forall p | p in m.visited :: p.1 < n)
    && (forall x: nat, i: nat | Lists(rev, x, i) :: (x, i) in m.listed && (x, i) !in m.visited)
  }

  lemma ListingOneMore(visits: nat, m: Ledger, rev: Index, n: nat, done: set<nat>, x: nat)
    requires EdgesListing(visits, m, rev, n, done) && x !in done
    ensures EdgesListing(visits, ListedOne(m, x, n), ListUnder(rev, x, n), n, done + {x})
    ensures |ListedOne(m, x, n).listed| == |m.listed| + 1
  {
    var more := ListUnder(rev, x, n);
    forall y: nat, i: nat | Lists(more, y, i)
      ensures (y, i) in ListedOne(m, x, n).listed && (y, i) !in m.visited
    {
      if !(y == x && i == n) { ListedBefore(rev, x, n, y, i); }
    }
  }

  lemma ListedBefore(rev: Index, x: nat, n: nat, y: nat, i: nat)
    requires Lists(ListUnder(rev, x, n), y, i) && !(y == x && i == n)
    ensures Lists(rev, y, i)
  {}
}
