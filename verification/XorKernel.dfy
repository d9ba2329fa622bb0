/** Byte blocks and the XOR kernel (crates/orbit-fountain/src/simd.rs).

    `XorBlock` is byte-wise XOR; the two array methods work eight bytes at a
    time through a 64-bit word, as the source does, and are proved to compute
    it whichever byte order the machine packs its words in. */
module XorKernel {

  type Block = seq<bv8>

  datatype Endian = Little | Big

  /** Byte-wise XOR, as long as its left operand. */
  function XorBlock(a: Block, b: Block): (r: Block)
    ensures |r| == |a|
  {
    seq(|a|, i requires 0 <= i < |a| => if i < |b| then a[i] ^ b[i] else a[i])
  }

  function Zeros(n: nat): (r: Block)
    ensures |r| == n
  {
    seq(n, _ => 0)
  }

  lemma XorCancels(a: Block, b: Block)
    requires |a| == |b|
    ensures XorBlock(XorBlock(a, b), b) == a
    ensures XorBlock(a, a) == Zeros(|a|)
    ensures XorBlock(Zeros(|a|), a) == a
  {
    forall i | 0 <= i < |a|
      ensures (a[i] ^ b[i]) ^ b[i] == a[i] && a[i] ^ a[i] == 0 && 0 ^ a[i] == a[i]
    {}
  }

  /** Two right operands may be exchanged. */
  lemma XorSwap(a: Block, b: Block, c: Block)
    requires |a| == |b| == |c|
    ensures XorBlock(XorBlock(a, b), c) == XorBlock(XorBlock(a, c), b)
  {
    forall i | 0 <= i < |a| ensures (a[i] ^ b[i]) ^ c[i] == (a[i] ^ c[i]) ^ b[i] {}
  }

  function Join16(lo: bv8, hi: bv8): bv16 { (lo as bv16) | ((hi as bv16) << 8) }

  function Low16(w: bv16): bv8 { (w & 0xFF) as bv8 }

  function High16(w: bv16): bv8 { (w >> 8) as bv8 }

  function Join32(lo: bv16, hi: bv16): bv32 { (lo as bv32) | ((hi as bv32) << 16) }

  function Low32(w: bv32): bv16 { (w & 0xFFFF) as bv16 }

  function High32(w: bv32): bv16 { (w >> 16) as bv16 }

  function Join64(lo: bv32, hi: bv32): bv64 { (lo as bv64) | ((hi as bv64) << 32) }

  function Low64(w: bv64): bv32 { (w & 0xFFFF_FFFF) as bv32 }

  function High64(w: bv64): bv32 { (w >> 32) as bv32 }

  lemma Halves16(lo: bv8, hi: bv8)
    ensures Low16(Join16(lo, hi)) == lo && High16(Join16(lo, hi)) == hi
  {}

  lemma Halves32(lo: bv16, hi: bv16)
    ensures Low32(Join32(lo, hi)) == lo && High32(Join32(lo, hi)) == hi
  {}

  lemma Halves64(lo: bv32, hi: bv32)
    ensures Low64(Join64(lo, hi)) == lo && High64(Join64(lo, hi)) == hi
  {}

  lemma XorOfJoins16(a: bv8, b: bv8, c: bv8, d: bv8)
    ensures Join16(a, b) ^ Join16(c, d) == Join16(a ^ c, b ^ d)
  {}

  lemma XorOfJoins32(a: bv16, b: bv16, c: bv16, d: bv16)
    ensures Join32(a, b) ^ Join32(c, d) == Join32(a ^ c, b ^ d)
  {}

  lemma XorOfJoins64(a: bv32, b: bv32, c: bv32, d: bv32)
    ensures Join64(a, b) ^ Join64(c, d) == Join64(a ^ c, b ^ d)
  {}

  /** Four bytes, least significant first, as a half word. */
  function PackHalf(b0: bv8, b1: bv8, b2: bv8, b3: bv8): bv32 {
    Join32(Join16(b0, b1), Join16(b2, b3))
  }

  function UnpackHalf(w: bv32): (r: Block)
    ensures |r| == 4
  {
    [Low16(Low32(w)), High16(Low32(w)), Low16(High32(w)), High16(High32(w))]
  }

  lemma HalfRoundTrip(b0: bv8, b1: bv8, b2: bv8, b3: bv8)
    ensures UnpackHalf(PackHalf(b0, b1, b2, b3)) == [b0, b1, b2, b3]
  {
    Halves32(Join16(b0, b1), Join16(b2, b3));
    Halves16(b0, b1);
    Halves16(b2, b3);
  }

  lemma HalfXor(a0: bv8, a1: bv8, a2: bv8, a3: bv8, b0: bv8, b1: bv8, b2: bv8, b3: bv8)
    ensures PackHalf(a0, a1, a2, a3) ^ PackHalf(b0, b1, b2, b3)
         == PackHalf(a0 ^ b0, a1 ^ b1, a2 ^ b2, a3 ^ b3)
  {
    XorOfJoins32(Join16(a0, a1), Join16(a2, a3), Join16(b0, b1), Join16(b2, b3));
    XorOfJoins16(a0, a1, b0, b1);
    XorOfJoins16(a2, a3, b2, b3);
  }

  /** The 64-bit word an unaligned read of eight bytes yields. */
  function Pack(e: Endian, b: Block): bv64
    requires |b| == 8
  {
    match e
    case Little => Join64(PackHalf(b[0], b[1], b[2], b[3]), PackHalf(b[4], b[5], b[6], b[7]))
    case Big => Join64(PackHalf(b[7], b[6], b[5], b[4]), PackHalf(b[3], b[2], b[1], b[0]))
  }

  /** The eight bytes an unaligned write of a word stores. */
  function Unpack(e: Endian, w: bv64): (r: Block)
    ensures |r| == 8
  {
    var u := UnpackHalf(Low64(w)) + UnpackHalf(High64(w));
    match e
    case Little => u
    case Big => [u[7], u[6], u[5], u[4], u[3], u[2], u[1], u[0]]
  }

  lemma PackRoundTrip(e: Endian, b: Block)
    requires |b| == 8
    ensures Unpack(e, Pack(e, b)) == b
  {
    match e
    case Little =>
      Halves64(PackHalf(b[0], b[1], b[2], b[3]), PackHalf(b[4], b[5], b[6], b[7]));
      HalfRoundTrip(b[0], b[1], b[2], b[3]);
      HalfRoundTrip(b[4], b[5], b[6], b[7]);
    case Big =>
      Halves64(PackHalf(b[7], b[6], b[5], b[4]), PackHalf(b[3], b[2], b[1], b[0]));
      HalfRoundTrip(b[7], b[6], b[5], b[4]);
      HalfRoundTrip(b[3], b[2], b[1], b[0]);
  }

  lemma PackXorLittle(a: Block, b: Block)
    requires |a| == |b| == 8
    ensures Pack(Little, a) ^ Pack(Little, b) == Pack(Little, XorBlock(a, b))
  {
    XorOfJoins64(PackHalf(a[0], a[1], a[2], a[3]), PackHalf(a[4], a[5], a[6], a[7]),
                 PackHalf(b[0], b[1], b[2], b[3]), PackHalf(b[4], b[5], b[6], b[7]));
    HalfXor(a[0], a[1], a[2], a[3], b[0], b[1], b[2], b[3]);
    HalfXor(a[4], a[5], a[6], a[7], b[4], b[5], b[6], b[7]);
  }

  lemma PackXorBig(a: Block, b: Block)
    requires |a| == |b| == 8
    ensures Pack(Big, a) ^ Pack(Big, b) == Pack(Big, XorBlock(a, b))
  {
    XorOfJoins64(PackHalf(a[7], a[6], a[5], a[4]), PackHalf(a[3], a[2], a[1], a[0]),
                 PackHalf(b[7], b[6], b[5], b[4]), PackHalf(b[3], b[2], b[1], b[0]));
    HalfXor(a[7], a[6], a[5], a[4], b[7], b[6], b[5], b[4]);
    HalfXor(a[3], a[2], a[1], a[0], b[3], b[2], b[1], b[0]);
  }

  lemma PackXor(e: Endian, a: Block, b: Block)
    requires |a| == |b| == 8
    ensures Pack(e, a) ^ Pack(e, b) == Pack(e, XorBlock(a, b))
  {
    match e
    case Little => PackXorLittle(a, b);
    case Big => PackXorBig(a, b);
  }

  /** Packing and unpacking commute with XOR in either byte order. */
  lemma WordXorIsByteXor(e: Endian, a: Block, b: Block)
    requires |a| == |b| == 8
    ensures Unpack(e, Pack(e, a) ^ Pack(e, b)) == XorBlock(a, b)
  {
    PackXor(e, a, b);
    PackRoundTrip(e, XorBlock(a, b));
  }

  /** Stores eight bytes. */
  method WriteWord(dst: array<bv8>, i: nat, u: Block)
    requires i + 8 <= dst.Length && |u| == 8
    modifies dst
    ensures forall j | 0 <= j < dst.Length :: dst[j] == if i <= j < i + 8 then u[j - i] else old(dst[j])
  {
    for j := 0 to 8
      invariant forall n | 0 <= n < dst.Length :: dst[n] == if i <= n < i + j then u[n - i] else old(dst[n])
    {
      dst[i + j] := u[j];
    }
  }

  /** One word of the fast path: reads two words, XORs them and gives the bytes to store. */
  method XorWord(a: Block, b: Block, e: Endian) returns (u: Block)
    requires |a| == |b| == 8
    ensures u == XorBlock(a, b)
  {
    WordXorIsByteXor(e, a, b);
    u := Unpack(e, Pack(e, a) ^ Pack(e, b));
  }

  /** XOR on a slice is the slice of the XOR. */
  lemma XorSlice(a: Block, b: Block, lo: nat, hi: nat)
    requires |a| == |b| && lo <= hi <= |a|
    ensures XorBlock(a[lo..hi], b[lo..hi]) == XorBlock(a, b)[lo..hi]
  {}

  /** The next word in place. */
  method XorWordAt(dst: array<bv8>, src: array<bv8>, i: nat, e: Endian, ghost d: Block, ghost x: Block)
    requires dst.Length == src.Length == |d| && dst != src && i + 8 <= dst.Length && x == XorBlock(d, src[..])
    requires dst[..i] == x[..i] && dst[i..] == d[i..]
    modifies dst
    ensures dst[..i + 8] == x[..i + 8] && dst[i + 8..] == d[i + 8..]
  {
    SliceOfRest(dst[..], d, i, 8);
    ghost var s := src[..];
    var u := XorWord(dst[i..i + 8], src[i..i + 8], e);
    XorSlice(d, s, i, i + 8);
    assert s[i..i + 8] == src[i..i + 8] && dst[..][i..i + 8] == dst[i..i + 8];
    WriteWord(dst, i, u);
    assert dst[..i + 8] == x[..i] + u;
  }

  /** Equal from `i` on is equal in the next `n` and behind them. */
  lemma SliceOfRest(a: Block, b: Block, i: nat, n: nat)
    requires |a| == |b| && i + n <= |a| && a[i..] == b[i..]
    ensures a[i..i + n] == b[i..i + n] && a[i + n..] == b[i + n..]
  {
    assert a[i..][..n] == a[i..i + n] && b[i..][..n] == b[i..i + n];
    assert a[i..][n..] == a[i + n..] && b[i..][n..] == b[i + n..];
  }

  /** `dst ^= src`, eight bytes at a time and then the tail. */
  method XorInplace(dst: array<bv8>, src: array<bv8>, e: Endian)
    requires dst.Length == src.Length && dst != src
    modifies dst
    ensures dst[..] == XorBlock(old(dst[..]), src[..])
  {
    ghost var d, s := dst[..], src[..];
    ghost var x := XorBlock(d, s);
    var i := 0;
    while i + 8 <= dst.Length
      invariant 0 <= i <= dst.Length
      invariant dst[..i] == x[..i] && dst[i..] == d[i..]
    {
      XorWordAt(dst, src, i, e, d, x);
      i := i + 8;
    }
    while i < dst.Length
      invariant 0 <= i <= dst.Length
      invariant dst[..i] == x[..i] && dst[i..] == d[i..]
    {
      SliceOfRest(dst[..], d, i, 1);
      assert dst[..][i..i + 1][0] == dst[i] && d[i..i + 1][0] == d[i];
      ghost var before := dst[..];
      dst[i] := dst[i] ^ src[i];
      assert dst[..] == before[i := x[i]];
      OneMore(dst[..], x, i);
      i := i + 1;
    }
  }

  lemma OneMore(d: Block, x: Block, i: nat)
    requires i < |d| == |x| && d[..i] == x[..i] && d[i] == x[i]
    ensures d[..i + 1] == x[..i + 1]
  {
    assert d[..i + 1] == d[..i] + [d[i]] && x[..i + 1] == x[..i] + [x[i]];
  }

  /** The next word of two operands. */
  method XorWordTo(dst: array<bv8>, a: array<bv8>, b: array<bv8>, i: nat, e: Endian, ghost x: Block)
    requires dst.Length == a.Length == b.Length && dst != a && dst != b && i + 8 <= dst.Length
    requires x == XorBlock(a[..], b[..]) && dst[..i] == x[..i]
    modifies dst
    ensures dst[..i + 8] == x[..i + 8]
  {
    var u := XorWord(a[i..i + 8], b[i..i + 8], e);
    assert a[..][i..i + 8] == a[i..i + 8] && b[..][i..i + 8] == b[i..i + 8];
    XorSlice(a[..], b[..], i, i + 8);
    WriteWord(dst, i, u);
    assert dst[..i + 8] == x[..i] + u;
  }

  /** `dst = a ^ b`, eight bytes at a time and then the tail. */
  method XorInto(dst: array<bv8>, a: array<bv8>, b: array<bv8>, e: Endian)
    requires dst.Length == a.Length == b.Length && dst != a && dst != b
    modifies dst
    ensures dst[..] == XorBlock(a[..], b[..])
  {
    ghost var x := XorBlock(a[..], b[..]);
    var i := 0;
    while i + 8 <= dst.Length
      invariant 0 <= i <= dst.Length
      invariant dst[..i] == x[..i]
    {
      XorWordTo(dst, a, b, i, e, x);
      i := i + 8;
    }
    while i < dst.Length
      invariant 0 <= i <= dst.Length
      invariant dst[..i] == x[..i]
    {
      dst[i] := a[i] ^ b[i];
      OneMore(dst[..], x, i);
      i := i + 1;
    }
  }

  /** The in-place kernel on blocks held by value. */
  method XorBlocks(dst: Block, src: Block) returns (r: Block)
    requires |dst| == |src|
    ensures r == XorBlock(dst, src)
  {
    var d := new bv8[|dst|](i requires 0 <= i < |dst| => dst[i]);
    var s := new bv8[|src|](i requires 0 <= i < |src| => src[i]);
    XorInplace(d, s, Little);
    r := d[..];
  }

  /** The out-of-place kernel on blocks held by value. */
  method XorTwo(a: Block, b: Block) returns (r: Block)
    requires |a| == |b|
    ensures r == XorBlock(a, b)
  {
    var d := new bv8[|a|];
    var s := new bv8[|a|](i requires 0 <= i < |a| => a[i]);
    var t := new bv8[|b|](i requires 0 <= i < |b| => b[i]);
    XorInto(d, s, t, Little);
    r := d[..];
  }
}
