/** Bytes as numbers: little-endian fields and UTF-8 well-formedness. */
module Bytes {

  type Bytes = seq<bv8>

  function FromByte(b: bv8): (n: nat)
    ensures n < 256
  {
    b as nat
  }

  lemma NextByte(b: bv8)
    requires b != 255
    ensures FromByte(b + 1) == FromByte(b) + 1
  {}

  lemma LastByte()
    ensures FromByte(255) == 255
  {}

  lemma FirstByte()
    ensures FromByte(0) == 0
  {}

  function ToByte(n: nat): (b: bv8)
    requires n < 256
    ensures FromByte(b) == n
  {
    if n == 0 then
      FirstByte();
      0
    else
      var b := ToByte(n - 1);
      LastByte();
      NextByte(b);
      b + 1
  }

  function Pow256(count: nat): (p: nat)
    ensures p >= 1
  {
    if count == 0 then 1 else 256 * Pow256(count - 1)
  }

  /** `n` in `count` bytes, least significant first; higher bytes are cut off. */
  function PutLe(n: nat, count: nat): (s: Bytes)
    ensures |s| == count
  {
    if count == 0 then [] else [ToByte(n % 256)] + PutLe(n / 256, count - 1)
  }

  function GetLe(s: Bytes): nat {
    if s == [] then 0 else FromByte(s[0]) + 256 * GetLe(s[1..])
  }

  lemma {:induction false} PutGet(n: nat, count: nat)
    requires n < Pow256(count)
    ensures GetLe(PutLe(n, count)) == n
  {
    if count > 0 {
      PutGet(n / 256, count - 1);
      assert PutLe(n, count)[1..] == PutLe(n / 256, count - 1);
    }
  }

  lemma {:induction false} GetBound(s: Bytes)
    ensures GetLe(s) < Pow256(|s|)
  {
    if s != [] { GetBound(s[1..]); }
  }

  lemma {:induction false} GetPut(s: Bytes)
    ensures PutLe(GetLe(s), |s|) == s
  {
    if s != [] {
      GetPut(s[1..]);
      LowByte(FromByte(s[0]), GetLe(s[1..]));
      SameByte(s[0], ToByte(FromByte(s[0])));
      assert s == [s[0]] + s[1..];
    }
  }

  lemma LowByte(low: nat, high: nat)
    requires low < 256
    ensures (low + 256 * high) % 256 == low && (low + 256 * high) / 256 == high
  {}

  lemma SameByte(a: bv8, b: bv8)
    requires FromByte(a) == FromByte(b)
    ensures a == b
  {
    assert a == (FromByte(a) as bv8) && b == (FromByte(b) as bv8);
  }

  /** The number whose byte `i` has weight 256 to the power `i`. */
  function Weighed(s: Bytes): nat {
    if s == [] then 0 else Weighed(s[..|s| - 1]) + FromByte(s[|s| - 1]) * Pow256(|s| - 1)
  }

  lemma {:induction false} WeighedFromFront(s: Bytes)
    requires s != []
    ensures Weighed(s) == FromByte(s[0]) + 256 * Weighed(s[1..])
  {
    var n := |s| - 1;
    if n > 0 {
      WeighedFromFront(s[..n]);
      assert s[1..][..n - 1] == s[..n][1..];
      Shifted(FromByte(s[n]), Pow256(n - 1));
    } else {
      assert Weighed(s[..0]) == 0 && Weighed(s[1..]) == 0;
      assert FromByte(s[0]) * Pow256(0) == FromByte(s[0]);
    }
  }

  lemma Shifted(b: nat, w: nat)
    ensures b * (256 * w) == 256 * (b * w)
  {}

  /** Fields are little endian. */
  lemma {:induction false} GetIsWeighed(s: Bytes)
    ensures GetLe(s) == Weighed(s)
  {
    if s != [] {
      GetIsWeighed(s[1..]);
      WeighedFromFront(s);
    }
  }

  lemma WidthOfFour()
    ensures Pow256(4) == 0x1_0000_0000
  {
    assert Pow256(2) == 0x1_0000 && Pow256(3) == 0x100_0000;
  }

  // ---- UTF-8 ----

  predicate InRange(s: Bytes, i: nat, lo: nat, hi: nat) { i < |s| && lo <= FromByte(s[i]) <= hi }

  /** Length of the well-formed sequence at the start of `s`, or 0 (table 3-7 of the Unicode Standard). */
  function FirstSequence(s: Bytes): (n: nat)
    ensures n <= |s|
  {
    if InRange(s, 0, 0x00, 0x7F) then 1
    else if InRange(s, 0, 0xC2, 0xDF) && InRange(s, 1, 0x80, 0xBF) then 2
    else if InRange(s, 0, 0xE0, 0xE0) && InRange(s, 1, 0xA0, 0xBF) && InRange(s, 2, 0x80, 0xBF) then 3
    else if (InRange(s, 0, 0xE1, 0xEC) || InRange(s, 0, 0xEE, 0xEF))
            && InRange(s, 1, 0x80, 0xBF) && InRange(s, 2, 0x80, 0xBF) then 3
    else if InRange(s, 0, 0xED, 0xED) && InRange(s, 1, 0x80, 0x9F) && InRange(s, 2, 0x80, 0xBF) then 3
    else if InRange(s, 0, 0xF0, 0xF0) && InRange(s, 1, 0x90, 0xBF)
            && InRange(s, 2, 0x80, 0xBF) && InRange(s, 3, 0x80, 0xBF) then 4
    else if InRange(s, 0, 0xF1, 0xF3) && InRange(s, 1, 0x80, 0xBF)
            && InRange(s, 2, 0x80, 0xBF) && InRange(s, 3, 0x80, 0xBF) then 4
    else if InRange(s, 0, 0xF4, 0xF4) && InRange(s, 1, 0x80, 0x8F)
            && InRange(s, 2, 0x80, 0xBF) && InRange(s, 3, 0x80, 0xBF) then 4
    else 0
  }

  predicate Utf8(s: Bytes)
    decreases |s|
  {
    s == [] || (var n := FirstSequence(s); n > 0 && Utf8(s[n..]))
  }
}
