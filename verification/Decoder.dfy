/** The fountain decoder with its mutable state (crates/orbit-fountain/src/decoder.rs). */
module Decoder {
  import opened NatSets
  import opened XorKernel
  import opened LinearSystem
  import opened Soliton
  import opened FountainCode
  import opened PeelingSpec
  import opened ReverseIndex
  import opened OrbitCode
  import opened DecoderMeter
  import Cost = RippleCost
  import Spec = DecoderSpec
  import Precode

  datatype Outcome =
    | Ok(payload: Block)
    | ChecksumMismatch(expected: nat, got: nat)
    | Incomplete(resolved: nat, totalRequired: nat)

  /** The first `n` resolved blocks, cut off at `len` bytes. */
  ghost function JoinUpto(resolved: map<nat, Block>, n: nat, size: nat, len: nat): (r: Block)
    requires forall i | 0 <= i < n :: i in resolved && |resolved[i]| == size
    ensures |r| <= len
  {
    if n == 0 then []
    else
      var r := JoinUpto(resolved, n - 1, size, len);
      r + resolved[n - 1][..if len - |r| < size then len - |r| else size]
  }

  class FountainDecoder {
    const payloadLen: nat
    const symbolSize: nat
    const k: nat
    const l: nat
    const expectedChecksum: nat
    const rand: Randomness
    var resolved: map<nat, Block>
    var active: seq<Slot>
    var rev: Index
    var received: set<nat>
    /** The code both ends derive from K. */
    ghost const code: Code
    /** The plain decoder in the same state. */
    ghost var state: Spec.Decoder
    /** Block XORs and visits of index entries so far, the inputs put in the ripple
        queue so far, and the index entries visited and listed so far. */
    ghost var xors: nat
    ghost var visits: nat
    ghost var queued: seq<nat>
    ghost var ledger: Ledger

    ghost predicate Configured() {
      k >= 1 && Lawful(rand) && code == CodeFor(k, rand) && l == code.L()
    }

    /** The fields are the plain decoder's, and the index covers them. */
    ghost predicate Valid()
      reads this
    {
      && Configured()
      && Mirrors(state)
      && Fits(Spec.Resting(state), l, symbolSize)
    }

    /** Every index entry is visited at most once, and the queue log holds each
        resolved input exactly once. */
    ghost predicate Paid()
      reads this`visits, this`ledger, this`queued, this`rev, this`active, this`resolved
    {
      EdgesPaid(visits, ledger, rev, |active|) && Logged(queued, resolved)
    }

    /** Starts from the constraint equations of K alone. */
    constructor (len: nat, size: nat, count: nat, checksum: nat, generators: Randomness)
      requires count >= 1 && Lawful(generators)
      requires count + Precode.SFor(count) < Precode.U64_LIMIT
      ensures Valid()
      ensures payloadLen == len && symbolSize == size && k == count && expectedChecksum == checksum && rand == generators
      ensures code == CodeFor(count, generators) && state == Spec.Start(code, size)
      ensures Paid() && xors == 0 && |ledger.listed| == Cost.TotalDegree(active)
    {
      var s := Precode.SFor(count);
      var h := Precode.HForSearch(count);
      payloadLen, symbolSize, k, l, expectedChecksum := len, size, count, count + s + h, checksum;
      rand, code := generators, CodeFor(count, generators);
      resolved, received := map[], {};
      active, rev := [], map[];
      xors, visits, queued, ledger := 0, 0, [], Ledger({}, {});
      state := Spec.Start(CodeFor(count, generators), size);
      new;
      Stock(s, h);
    }

    /** Fills an empty decoder. */
    method Stock(s: nat, h: nat)
      requires Configured() && s == Precode.SFor(k) && h == Precode.HFor(k) && state == Spec.Start(code, symbolSize)
      requires resolved == map[] && received == {} && active == [] && rev == map[]
      requires xors == visits == 0 && queued == [] && ledger == Ledger({}, {})
      modifies this`active, this`rev, this`ledger
      ensures Valid() && Paid() && |ledger.listed| == Cost.TotalDegree(active)
    {
      AddChecks(s, h);
      StartFields(code, symbolSize);
      NothingLogged();
    }

    /** Adds all constraint equations to an empty decoder. */
    method AddChecks(s: nat, h: nat)
      requires Configured() && s == Precode.SFor(k) && h == Precode.HFor(k) && active == [] && rev == map[]
      requires xors == visits == 0 && ledger == Ledger({}, {})
      modifies this`active, this`rev, this`ledger
      ensures active == Spec.Actives(Spec.CheckList(code, symbolSize)) && Stocked()
    {
      CodeChecks(k, rand);
      AddLdpcChecks(s, h);
      AddHdpcChecks(s, h);
    }

    /** During construction: equations are indexed and their inputs counted. */
    ghost predicate Stocked()
      reads this`active, this`rev, this`visits, this`ledger
    {
      Covers(rev, active) && EdgesPaid(visits, ledger, rev, |active|) && |ledger.listed| == Cost.TotalDegree(active)
    }

    /** Stores and indexes the next constraint equation, whose right-hand side is zero. */
    method AddEquation(inputs: set<nat>, ghost n: nat)
      requires code.Valid() && n < |code.checks| && inputs == code.checks[n] + {code.k + n}
      requires active == Spec.Actives(Spec.CheckList(code, symbolSize))[..n] && Stocked()
      modifies this`active, this`rev, this`ledger
      ensures active == Spec.Actives(Spec.CheckList(code, symbolSize))[..n + 1] && Stocked()
    {
      NextCheck(code, symbolSize, n);
      Cost.TotalDegreeAppend(active, Active(Equation(inputs, Zeros(symbolSize))));
      Store(Equation(inputs, Zeros(symbolSize)));
    }

    method AddLdpcChecks(s: nat, ghost h: nat)
      requires k >= 1 && s >= 2 && Lawful(rand) && code.Valid() && code.k == k && ChecksAre(code, rand, s, h)
      requires active == [] && Stocked()
      modifies this`active, this`rev, this`ledger
      ensures active == Spec.Actives(Spec.CheckList(code, symbolSize))[..s] && Stocked()
    {
      for i := 0 to s
        invariant active == Spec.Actives(Spec.CheckList(code, symbolSize))[..i] && Stocked()
      {
        var inputs := LdpcEquation(s, i, h);
        AddEquation(inputs, i);
      }
    }

    /** The inputs of LDPC check `i` and its own. */
    method LdpcEquation(s: nat, i: nat, ghost h: nat) returns (inputs: set<nat>)
      requires k >= 1 && s >= 2 && Lawful(rand) && code.Valid() && code.k == k && ChecksAre(code, rand, s, h) && i < s
      ensures inputs == code.checks[i] + {code.k + i}
    {
      var ns := PrecodeNeighbors(k, s, i);
      inputs := Elements(ns) + {k + i};
    }

    method AddHdpcChecks(s: nat, h: nat)
      requires k >= 1 && s >= 2 && Lawful(rand) && code.Valid() && code.k == k && ChecksAre(code, rand, s, h)
      requires active == Spec.Actives(Spec.CheckList(code, symbolSize))[..s] && Stocked()
      modifies this`active, this`rev, this`ledger
      ensures active == Spec.Actives(Spec.CheckList(code, symbolSize)) && Stocked()
    {
      var n := s;
      while n < s + h
        invariant s <= n <= s + h
        invariant active == Spec.Actives(Spec.CheckList(code, symbolSize))[..n] && Stocked()
      {
        var inputs := HdpcEquation(s, n, h);
        AddEquation(inputs, n);
        n := n + 1;
      }
    }

    /** The inputs of dense check `n - s` and its own. */
    method HdpcEquation(s: nat, n: nat, ghost h: nat) returns (inputs: set<nat>)
      requires k >= 1 && s >= 2 && Lawful(rand) && code.Valid() && code.k == k && ChecksAre(code, rand, s, h) && s <= n < s + h
      ensures inputs == code.checks[n] + {code.k + n}
    {
      var ns := HdpcNeighbors(rand, k, s, n - s);
      inputs := Elements(ns) + {k + n};
    }

    /** Counting resolved inputs tells whether every input is resolved. */
    method IsComplete() returns (b: bool)
      requires Valid()
      ensures b <==> resolved.Keys == Upto(l)
    {
      BoundedSize(resolved.Keys, l);
      b := |resolved| >= l;
    }

    /** Substitutes `r` into the listed slots, in order. */
    method TouchListed(r: nat, slots: seq<nat>, queue0: seq<nat>, ghost bound: nat) returns (queue: seq<nat>)
      requires r in resolved && Fits(Work(resolved, active, queue0), bound, symbolSize)
      requires Ascends(slots, |active|)
      requires forall i | 0 <= i < |active| && Mentions(active[i], r) :: i in slots
      modifies this`resolved, this`active, this`xors, this`visits, this`queued
      ensures Work(resolved, active, queue)
           == ScanUpto(old(Work(resolved, active, queue0)), |old(active)|, r, bound, symbolSize)
      ensures old(Logged(queued, resolved)) ==> Logged(queued, resolved)
      ensures visits == old(visits) + |slots|
      ensures xors == old(xors) + Cost.ScanCost(old(Work(resolved, active, queue0)), |old(active)|, r, bound, symbolSize)
    {
      ghost var w := Work(resolved, active, queue0);
      var data := resolved[r];
      queue := queue0;
      ghost var p := 0;
      var j := 0;
      PendingStarts(w.active, slots, r);
      while j < |slots|
        invariant 0 <= j <= |slots| && Pending(w.active, slots, j, p, r)
        invariant Work(resolved, active, queue) == ScanUpto(w, p, r, bound, symbolSize)
        invariant old(Logged(queued, resolved)) ==> Logged(queued, resolved)
        invariant visits == old(visits) + j
        invariant xors == old(xors) + Cost.ScanCost(w, p, r, bound, symbolSize)
      {
        NextVisit(w, slots, j, p, r, bound, symbolSize);
        queue := TouchSlot(slots[j], r, data, queue, bound);
        p, j := slots[j] + 1, j + 1;
      }
      LastVisit(w, slots, p, r, bound, symbolSize);
    }

    /** One iteration of the ripple's inner loop. */
    method TouchSlot(slot: nat, r: nat, data: Block, queue0: seq<nat>, ghost bound: nat) returns (queue: seq<nat>)
      requires slot < |active| && r in resolved && resolved[r] == data
      requires Fits(Work(resolved, active, queue0), bound, symbolSize)
      modifies this`resolved, this`active, this`xors, this`visits, this`queued
      ensures Work(resolved, active, queue) == Touch(old(Work(resolved, active, queue0)), slot, r)
      ensures old(Logged(queued, resolved)) ==> Logged(queued, resolved)
      ensures queue0 <= queue && queued == old(queued) + queue[|queue0|..]
      ensures visits == old(visits) + 1
      ensures xors == old(xors) + Cost.TouchCost(old(Work(resolved, active, queue0)), slot, r)
    {
      queue := queue0;
      visits := visits + 1;
      if active[slot].Removed? { return; }
      var eq := active[slot].eq;
      if r !in eq.inputs { return; }
      assert SlotFits(active[slot], bound, symbolSize);
      var left := eq.inputs - {r};
      var block := XorBlocks(eq.data, data);
      xors := xors + 1;
      if |left| == 1 {
        var x :| x in left;
        assert x == Only(left);
        if x !in resolved {
          if Logged(queued, resolved) { LogOneMore(queued, resolved, x, block); }
          active := active[slot := Removed];
          resolved := resolved[x := block];
          queue := queue + [x];
          queued := queued + [x];
        } else {
          active := active[slot := Active(Equation(left, block))];
        }
      } else if left == {} {
        active := active[slot := Removed];
      } else {
        active := active[slot := Active(Equation(left, block))];
      }
    }

    /** The ripple: pops resolved inputs until none is queued. */
    method RunRipple(queue0: seq<nat>, ghost bound: nat)
      requires Fits(Work(resolved, active, queue0), bound, symbolSize) && Covers(rev, active)
      modifies this`resolved, this`active, this`rev, this`xors, this`visits, this`queued, this`ledger
      ensures var w := Ripple(old(Work(resolved, active, queue0)), bound, symbolSize);
              resolved == w.resolved && active == w.active
      ensures Covers(rev, active) && (old(Paid()) ==> Paid()) && ledger.listed == old(ledger).listed
      ensures xors == old(xors) + Cost.RunCost(old(Work(resolved, active, queue0)), bound, symbolSize)
    {
      ghost var goal := Ripple(Work(resolved, active, queue0), bound, symbolSize);
      ghost var cost := xors + Cost.RunCost(Work(resolved, active, queue0), bound, symbolSize);
      var queue := queue0;
      while queue != []
        invariant Fits(Work(resolved, active, queue), bound, symbolSize) && Covers(rev, active)
        invariant old(Paid()) ==> Paid()
        invariant Ripple(Work(resolved, active, queue), bound, symbolSize) == goal
        invariant xors + Cost.RunCost(Work(resolved, active, queue), bound, symbolSize) == cost
        invariant ledger.listed == old(ledger).listed
        decreases Remaining(Work(resolved, active, queue), bound, symbolSize)
      {
        queue := PopFirst(queue, bound);
      }
    }

    /** One iteration of the ripple: pops a resolved input, drops its index entry
        and substitutes it into the slots listed there. */
    method PopFirst(queue0: seq<nat>, ghost bound: nat) returns (queue: seq<nat>)
      requires queue0 != [] && Fits(Work(resolved, active, queue0), bound, symbolSize) && Covers(rev, active)
      modifies this`resolved, this`active, this`rev, this`xors, this`visits, this`queued, this`ledger
      ensures Work(resolved, active, queue) == RippleStep(old(Work(resolved, active, queue0)), bound, symbolSize)
      ensures Covers(rev, active) && (old(Paid()) ==> Paid()) && ledger.listed == old(ledger).listed
      ensures xors == old(xors) + Cost.ScanCost(old(Work(resolved, active, queue0[1..])), |old(active)|, queue0[0], bound, symbolSize)
    {
      var r := queue0[0];
      ScanKeepsCover(rev, Work(resolved, active, queue0[1..]), r, bound, symbolSize);
      var slots := Unlist(r);
      queue := TouchListed(r, slots, queue0[1..], bound);
    }

    /** Drops the index entry of a popped input; all its slots are about to be visited. */
    method Unlist(r: nat) returns (slots: seq<nat>)
      requires Covers(rev, active)
      modifies this`rev, this`ledger
      ensures rev == old(rev) - {r} && ledger.listed == old(ledger).listed
      ensures Ascends(slots, |active|)
      ensures forall i | 0 <= i < |active| && Mentions(active[i], r) :: i in slots
      ensures old(EdgesPaid(visits, ledger, rev, |active|)) ==> EdgesPaid(visits + |slots|, ledger, rev, |active|)
    {
      slots := if r in rev then rev[r] else [];
      ListedSlots(rev, active, r);
      if EdgesPaid(visits, ledger, rev, |active|) { SweptIsPaid(visits, ledger, rev, r, slots, |active|); }
      rev, ledger := rev - {r}, Swept(ledger, r, slots);
    }

    /** Lists a new slot under each of its inputs and stores the equation there. */
    method Store(e: Equation)
      requires Covers(rev, active)
      modifies this`active, this`rev, this`ledger
      ensures active == old(active) + [Active(e)] && Covers(rev, active)
      ensures old(EdgesPaid(visits, ledger, rev, |active|)) ==>
                EdgesPaid(visits, ledger, rev, |active|) && |ledger.listed| == |old(ledger).listed| + |e.inputs|
    {
      var todo := e.inputs;
      ListingStarts(rev, active, e.inputs);
      while todo != {}
        invariant Listing(rev, active, e.inputs, todo) && active == old(active)
        invariant old(EdgesPaid(visits, ledger, rev, |active|)) ==> Counting(e.inputs, todo, |old(ledger).listed|)
        decreases todo
      {
        var n :| n in todo;
        ListOne(n, e.inputs, todo, |old(ledger).listed|);
        todo := todo - {n};
      }
      ListingDone(rev, active, e);
      active := active + [Active(e)];
    }

    /** Lists the new slot under one more input. */
    method ListOne(n: nat, ghost inputs: set<nat>, ghost todo: set<nat>, ghost before: nat)
      requires Listing(rev, active, inputs, todo) && n in todo
      modifies this`rev, this`ledger
      ensures Listing(rev, active, inputs, todo - {n})
      ensures old(Counting(inputs, todo, before)) ==> Counting(inputs, todo - {n}, before)
    {
      ListingStep(rev, active, inputs, todo, n);
      if Counting(inputs, todo, before) {
        ListingOneMore(visits, ledger, rev, |active|, inputs - todo, n);
        assert inputs - (todo - {n}) == (inputs - todo) + {n};
      }
      rev, ledger := ListUnder(rev, n, |active|), ListedOne(ledger, n, |active|);
    }

    /** While a new slot is being listed under its inputs, all but `todo` done. */
    ghost predicate Counting(inputs: set<nat>, todo: set<nat>, before: nat)
      reads this`visits, this`ledger, this`rev, this`active
    {
      && EdgesListing(visits, ledger, rev, |active|, inputs - todo)
      && |ledger.listed| + |todo| == before + |inputs|
    }

    /** Cancels the resolved inputs out of an arriving symbol; `spent` counts the XORs. */
    method Cancel(ns: seq<nat>, data0: Block, ghost o: Equation) returns (inputs: set<nat>, data: Block, ghost spent: nat)
      requires o.inputs == Elements(ns) && o.data == data0 && |data0| == symbolSize && StrictlyIncreasing(ns)
      requires forall x | x in resolved :: |resolved[x]| == symbolSize
      ensures Equation(inputs, data) == Spec.Cancelled(o, ns, resolved)
      ensures spent == |o.inputs * resolved.Keys|
    {
      inputs, data, spent := {}, data0, 0;
      assert ns[..0] == [];
      assert Elements(ns[..0]) * resolved.Keys == {};
      for j := 0 to |ns|
        invariant data == Spec.Cancelled(o, ns[..j], resolved).data && |data| == symbolSize
        invariant inputs == Elements(ns[..j]) - resolved.Keys
        invariant spent == |Elements(ns[..j]) * resolved.Keys|
      {
        NextListed(o, ns, j, resolved);
        if ns[j] in resolved {
          data := XorBlocks(data, resolved[ns[j]]);
          spent := spent + 1;
        } else {
          inputs := inputs + {ns[j]};
        }
      }
      assert ns[..|ns|] == ns;
      Spec.CancelledInputs(o, ns, resolved);
    }

    ghost predicate Mirrors(d: Spec.Decoder)
      reads this`resolved, this`active, this`received, this`rev
    {
      resolved == d.resolved && active == d.active && received == d.received && Covers(rev, active)
    }

    /** Takes in one symbol and runs the ripple; says whether decoding is complete. */
    method AddSymbol(symbol: EncodedSymbol) returns (complete: bool)
      requires Valid() && |symbol.data| == symbolSize
      modifies this`resolved, this`active, this`rev, this`received, this`state, this`xors, this`visits, this`queued, this`ledger
      ensures Valid()
      ensures state == Spec.Ingest(code, symbolSize, old(state), symbol)
      ensures complete <==> |resolved| >= l
      ensures old(Paid()) ==> Paid()
      ensures old(Paid()) ==> |ledger.listed| <= |old(ledger).listed| + Cost.Brought(code, old(state), symbol)
      ensures xors == old(xors) + Cost.IngestCost(code, symbolSize, old(state), symbol)
    {
      Spec.IngestFits(code, symbolSize, state, symbol);
      TakeIn(symbol, code, state);
      state := Spec.Ingest(code, symbolSize, state, symbol);
      complete := |resolved| >= l;
    }

    method TakeIn(symbol: EncodedSymbol, ghost c: FountainCode.Code, ghost d: Spec.Decoder)
      requires c.Valid() && Fits(Spec.Resting(d), c.L(), symbolSize) && |symbol.data| == symbolSize
      requires k >= 1 && Lawful(rand) && c == CodeFor(k, rand) && l == c.L() && Mirrors(d)
      modifies this`resolved, this`active, this`rev, this`received, this`xors, this`visits, this`queued, this`ledger
      ensures Mirrors(Spec.Ingest(c, symbolSize, d, symbol)) && (old(Paid()) ==> Paid())
      ensures xors == old(xors) + Cost.IngestCost(c, symbolSize, d, symbol)
      ensures old(Paid()) ==> |ledger.listed| <= |old(ledger).listed| + Cost.Brought(c, d, symbol)
    {
      if |resolved| >= l || symbol.esi in received { return; }
      NewArrival(c, symbolSize, d, symbol);
      var inputs, data, spent := Arrive(symbol, c, d);
      TakeNew(symbol.esi, Equation(inputs, data), l, Spec.Resting(d), spent);
    }

    /** A symbol that is neither late nor a duplicate, after `spent` XORs of cancelling. */
    method TakeNew(esi: nat, e: Equation, ghost bound: nat, ghost w: Work, ghost spent: nat)
      requires w == Work(resolved, active, []) && Fits(w, bound, symbolSize) && Covers(rev, active)
      requires Below(e.inputs, bound) && |e.data| == symbolSize && e.inputs !! resolved.Keys
      modifies this`resolved, this`active, this`rev, this`received, this`xors, this`visits, this`queued, this`ledger
      ensures Work(resolved, active, []) == Spec.Absorb(w, e, bound, symbolSize)
      ensures received == old(received) + {esi} && Covers(rev, active) && (old(Paid()) ==> Paid())
      ensures xors == old(xors) + spent + Cost.AbsorbCost(w, e, bound, symbolSize)
      ensures old(Paid()) ==> |ledger.listed| <= |old(ledger).listed| + |e.inputs|
    {
      received, xors := received + {esi}, xors + spent;
      Absorb(e, bound, w);
    }

    /** The symbol's equation over its neighbours, with what is resolved cancelled. */
    method Arrive(symbol: EncodedSymbol, ghost c: FountainCode.Code, ghost d: Spec.Decoder)
      returns (inputs: set<nat>, data: Block, ghost spent: nat)
      requires c.Valid() && |symbol.data| == symbolSize && resolved == d.resolved
      requires forall x | x in resolved :: |resolved[x]| == symbolSize
      requires k >= 1 && Lawful(rand) && c == CodeFor(k, rand) && l == c.L()
      ensures Equation(inputs, data) == Spec.Arriving(c, d, symbol)
      ensures spent == |c.Symbol(symbol.esi) * d.resolved.Keys|
    {
      var degree, ns := GetNeighbors(rand, l, symbol.esi);
      DecoderNeighbours(c, k, rand, symbol, ns);
      inputs, data, spent := Cancel(ns, symbol.data, Spec.EquationOf(c, symbol));
    }

    /** Joins the source blocks, cut to the payload length, and checks the hash. */
    method Reconstruct(hash: Block -> nat) returns (outcome: Outcome)
      requires Valid()
      ensures |resolved| < l ==> outcome == Incomplete(|resolved|, l)
      ensures |resolved| >= l ==>
                && (forall i | 0 <= i < k :: i in resolved && |resolved[i]| == symbolSize)
                && (var joined := JoinUpto(resolved, k, symbolSize, payloadLen);
                    outcome == if hash(joined) != expectedChecksum
                               then ChecksumMismatch(expectedChecksum, hash(joined))
                               else Ok(joined))
    {
      if |resolved| < l { return Incomplete(|resolved|, l); }
      AllResolved(resolved, k, l, symbolSize);
      var joined: Block := [];
      for i := 0 to k
        invariant joined == JoinUpto(resolved, i, symbolSize, payloadLen)
      {
        var remaining := payloadLen - |joined|;
        var count := if remaining < symbolSize then remaining else symbolSize;
        joined := joined + resolved[i][..count];
      }
      var got := hash(joined);
      if got != expectedChecksum { return ChecksumMismatch(expectedChecksum, got); }
      return Ok(joined);
    }

    /** Resolves, stores or drops what is left of a symbol. */
    method Absorb(e: Equation, ghost bound: nat, ghost w: Work)
      requires w == Work(resolved, active, []) && Fits(w, bound, symbolSize) && Covers(rev, active)
      requires Below(e.inputs, bound) && |e.data| == symbolSize && e.inputs !! resolved.Keys
      modifies this`resolved, this`active, this`rev, this`xors, this`visits, this`queued, this`ledger
      ensures Work(resolved, active, []) == Spec.Absorb(w, e, bound, symbolSize)
      ensures Covers(rev, active) && (old(Paid()) ==> Paid())
      ensures xors == old(xors) + Cost.AbsorbCost(w, e, bound, symbolSize)
      ensures old(Paid()) ==> |ledger.listed| <= |old(ledger).listed| + |e.inputs|
    {
      if |e.inputs| == 1 {
        SeededFits(w, e, bound, symbolSize);
        var x :| x in e.inputs;
        assert x == Only(e.inputs);
        if Logged(queued, resolved) { LogOneMore(queued, resolved, x, e.data); }
        resolved := resolved[x := e.data];
        queued := queued + [x];
        RunRipple([x], bound);
      } else if e.inputs != {} {
        Store(e);
      }
    }
  }

  /** The scan up to the next listed slot, and that slot. */
  lemma NextVisit(w: Work, slots: seq<nat>, j: nat, p: nat, r: nat, l: nat, size: nat)
    requires r in w.resolved && Fits(w, l, size) && Ascends(slots, |w.active|) && j < |slots| && Pending(w.active, slots, j, p, r)
    ensures p <= |w.active| && Pending(w.active, slots, j + 1, slots[j] + 1, r)
    ensures ScanUpto(w, p, r, l, size).resolved[r] == w.resolved[r]
    ensures ScanUpto(w, slots[j] + 1, r, l, size) == Touch(ScanUpto(w, p, r, l, size), slots[j], r)
    ensures Cost.ScanCost(w, slots[j] + 1, r, l, size)
         == Cost.ScanCost(w, p, r, l, size) + Cost.TouchCost(ScanUpto(w, p, r, l, size), slots[j], r)
  {
    PendingStep(w.active, slots, j, p, r);
    ScanSkips(w, p, slots[j], r, l, size);
    Cost.CostSkips(w, p, slots[j], r, l, size);
    ScanUnfolds(w, slots[j], r, l, size);
  }

  lemma LastVisit(w: Work, slots: seq<nat>, p: nat, r: nat, l: nat, size: nat)
    requires r in w.resolved && Fits(w, l, size) && Pending(w.active, slots, |slots|, p, r)
    ensures p <= |w.active|
    ensures ScanUpto(w, |w.active|, r, l, size) == ScanUpto(w, p, r, l, size)
    ensures Cost.ScanCost(w, |w.active|, r, l, size) == Cost.ScanCost(w, p, r, l, size)
  {
    PendingEnds(w.active, slots, p, r);
    ScanSkips(w, p, |w.active|, r, l, size);
    Cost.CostSkips(w, p, |w.active|, r, l, size);
  }

  /** The next of the listed inputs is cancelled if it is resolved. */
  lemma NextCancelled(o: Equation, ns: seq<nat>, j: nat, known: map<nat, Block>)
    requires j < |ns| && (ns[j] in known ==> |known[ns[j]]| == |o.data|)
    ensures Spec.Cancelled(o, ns[..j + 1], known).data
         == if ns[j] in known then XorBlock(Spec.Cancelled(o, ns[..j], known).data, known[ns[j]])
            else Spec.Cancelled(o, ns[..j], known).data
  {
    assert ns[..j + 1][..j] == ns[..j];
  }

  /** It is kept if it is not, and counted if it is. */
  lemma NextKept(ns: seq<nat>, j: nat, known: set<nat>)
    requires StrictlyIncreasing(ns) && j < |ns|
    ensures Elements(ns[..j + 1]) - known
         == if ns[j] in known then Elements(ns[..j]) - known else Elements(ns[..j]) - known + {ns[j]}
    ensures |Elements(ns[..j + 1]) * known| == |Elements(ns[..j]) * known| + if ns[j] in known then 1 else 0
  {
    NextElement(ns, j);
    var s, x := Elements(ns[..j]), ns[j];
    assert (s + {x}) * known == if x in known then s * known + {x} else s * known;
  }

  lemma NextListed(o: Equation, ns: seq<nat>, j: nat, known: map<nat, Block>)
    requires StrictlyIncreasing(ns) && j < |ns| && (ns[j] in known ==> |known[ns[j]]| == |o.data|)
    ensures Spec.Cancelled(o, ns[..j + 1], known).data
         == if ns[j] in known then XorBlock(Spec.Cancelled(o, ns[..j], known).data, known[ns[j]])
            else Spec.Cancelled(o, ns[..j], known).data
    ensures Elements(ns[..j + 1]) - known.Keys
         == if ns[j] in known then Elements(ns[..j]) - known.Keys else Elements(ns[..j]) - known.Keys + {ns[j]}
    ensures |Elements(ns[..j + 1]) * known.Keys| == |Elements(ns[..j]) * known.Keys| + if ns[j] in known then 1 else 0
  {
    NextCancelled(o, ns, j, known);
    NextKept(ns, j, known.Keys);
  }

  /** What arrives names no resolved input and no more inputs than were sent. */
  ghost predicate Arrived(c: FountainCode.Code, size: nat, d: Spec.Decoder, symbol: EncodedSymbol)
    requires c.Valid()
  {
    var e := Spec.Arriving(c, d, symbol);
    && e.inputs !! d.resolved.Keys && |e.inputs| <= |c.Symbol(symbol.esi)|
    && Below(e.inputs, c.L()) && |e.data| == size
  }

  /** What arrives decides what taking the symbol in does and costs. */
  lemma NewArrival(c: FountainCode.Code, size: nat, d: Spec.Decoder, symbol: EncodedSymbol)
    requires c.Valid() && Fits(Spec.Resting(d), c.L(), size) && |symbol.data| == size
    requires !Spec.Complete(c, d) && symbol.esi !in d.received
    ensures Arrived(c, size, d, symbol)
    ensures var e, after := Spec.Arriving(c, d, symbol), Spec.Ingest(c, size, d, symbol);
            var w := Spec.Absorb(Spec.Resting(d), e, c.L(), size);
            && after.resolved == w.resolved && after.active == w.active && after.received == d.received + {symbol.esi}
            && Cost.IngestCost(c, size, d, symbol)
            == |c.Symbol(symbol.esi) * d.resolved.Keys| + Cost.AbsorbCost(Spec.Resting(d), e, c.L(), size)
  {
    Spec.ArrivingArrives(c, size, d, symbol);
    SubsetSize(Spec.Arriving(c, d, symbol).inputs, c.Symbol(symbol.esi));
  }

  lemma NothingLogged()
    ensures Logged([], map[])
  {
    var none: map<nat, Block> := map[];
    assert Elements([]) == none.Keys;
  }

  lemma AllResolved(resolved: map<nat, Block>, k: nat, l: nat, size: nat)
    requires k <= l && Below(resolved.Keys, l) && |resolved| >= l
    requires forall x | x in resolved :: |resolved[x]| == size
    ensures forall i | 0 <= i < k :: i in resolved && |resolved[i]| == size
  {
    BoundedSize(resolved.Keys, l);
    assert resolved.Keys == Upto(l);
    forall i | 0 <= i < k ensures i in resolved { assert i in Upto(l); }
  }

  lemma NextCheck(c: Code, size: nat, n: nat)
    requires c.Valid() && n < |c.checks|
    ensures var all := Spec.Actives(Spec.CheckList(c, size));
            && |all| == |c.checks|
            && all[..n + 1] == all[..n] + [Active(Equation(c.checks[n] + {c.k + n}, Zeros(size)))]
  {}

  lemma StartFields(c: Code, size: nat)
    requires c.Valid()
    ensures Fits(Spec.Resting(Spec.Start(c, size)), c.L(), size)
    ensures var d := Spec.Start(c, size);
            d.resolved == map[] && d.active == Spec.Actives(Spec.CheckList(c, size)) && d.received == {}
  {
    Spec.StartIsGood(c, size);
  }

  /** After the scan for `r` the index covers the slots without an entry for `r`. */
  lemma ScanKeepsCover(rev: Index, w: Work, r: nat, l: nat, size: nat)
    requires r in w.resolved && Fits(w, l, size) && Covers(rev, w.active)
    ensures |ScanUpto(w, |w.active|, r, l, size).active| == |w.active|
    ensures Covers(rev - {r}, ScanUpto(w, |w.active|, r, l, size).active)
  {
    ScanShrinks(w, |w.active|, r, l, size);
    CoversAfterScan(rev, w.active, ScanUpto(w, |w.active|, r, l, size).active, r);
  }

  lemma ListedSlots(rev: Index, active: seq<Slot>, r: nat)
    requires Covers(rev, active)
    ensures Ascends(if r in rev then rev[r] else [], |active|)
    ensures forall i | 0 <= i < |active| && Mentions(active[i], r) :: i in (if r in rev then rev[r] else [])
  {
    forall i | 0 <= i < |active| && Mentions(active[i], r)
      ensures r in rev && i in rev[r]
    {
      assert Lists(rev, r, i);
    }
  }

  lemma DecoderNeighbours(c: FountainCode.Code, k: nat, rand: Randomness, symbol: EncodedSymbol, ns: seq<nat>)
    requires k >= 1 && Lawful(rand) && c == CodeFor(k, rand) && Enumerates(ns, Chosen(rand, c.L(), symbol.esi))
    ensures ns == Ascending(c.Symbol(symbol.esi), c.L())
    ensures Elements(ns) == c.Symbol(symbol.esi)
  {
    CodeSymbol(k, rand, symbol.esi);
    EnumerationIsAscending(ns, c.Symbol(symbol.esi), c.L());
  }
}
