/** The block codec for half-float thumbnails (src/common/image_compression.c): 4x4 pixels in 16 bytes.  A pixel is
    seen as the code of its luma, and a 2x2 quad as the two codes of its chroma. */
module ImageCompression {
  import opened Arithmetic

  /** Luma codes, exponent 0..30 and a mantissa of ten bits: 16 of them make a block. */
  type LumaBlock = s: seq<int> | |s| == 16 && forall i :: 0 <= i < 16 ==> 0 <= s[i] < LUMA_END
    witness seq(16, _ => 0)

  const LUMA_END := 31 * 1024

  /** The seven bit chroma codes, red or blue, of the four 2x2 quads of a block. */
  type ChromaBlock = s: seq<int> | |s| == 4 && forall i :: 0 <= i < 4 ==> 0 <= s[i] < 128
    witness seq(4, _ => 0)

  /** The 16 bytes of a block. */
  type Block = s: seq<int> | |s| == 16 && forall i :: 0 <= i < 16 ==> 0 <= s[i] < 256
    witness seq(16, _ => 0)

  // ---------------------------------------------------------------------------------------------
  // The luma code of a float, and the float of a luma code
  // ---------------------------------------------------------------------------------------------

  /** From the bits of a non-negative float: exponent clamped to 0..30, the top ten bits of the mantissa. */
  function LumaCode(bits: nat): (code: nat)
    requires bits < 0x8000_0000
    ensures code < LUMA_END
  {
    var e := bits / 0x80_0000 - (127 - 15);
    var e := if e > 0 then e else 0;
    var e := if e > 30 then 30 else e;
    bits / 0x2000 % 0x400 + e * 1024
  }

  function LumaBits(code: nat): nat
    requires code < 0x10000
  {
    (code / 1024 + (127 - 15)) * 0x80_0000 + code % 0x400 * 0x2000
  }

  /** A luma code survives the way through the float. */
  lemma LumaBitsRoundTrip(code: nat)
    requires code < LUMA_END
    ensures LumaBits(code) < 0x8000_0000 && LumaCode(LumaBits(code)) == code
  {
    var e, m := code / 1024, code % 1024;
    var bits := LumaBits(code);
    assert bits == 0x2000 * (0x400 * (e + 112) + m);
    assert bits / 0x2000 == 0x400 * (e + 112) + m;
    assert bits / 0x80_0000 == e + 112;
  }

  const LEAST: nat := 112 * 0x80_0000      // the bits of 2^-15, the least float with a code of its own
  const BEYOND: nat := 143 * 0x80_0000     // the bits of 2^16

  /** Between 2^-15 and 2^16 the code counts the floats in steps of 2^13.  Outside, the exponent stands still at 0 or
      30, and the code follows the mantissa alone. */
  lemma LumaCodeMeans(bits: nat)
    requires bits < 0x8000_0000
    ensures LEAST <= bits < BEYOND ==> LumaCode(bits) == (bits - LEAST) / 0x2000
    ensures bits < LEAST ==> LumaCode(bits) == bits % 0x80_0000 / 0x2000
    ensures BEYOND <= bits ==> LumaCode(bits) == 30 * 1024 + bits % 0x80_0000 / 0x2000
  {
    var e, m := bits / 0x80_0000, bits % 0x80_0000;
    assert bits / 0x2000 == e * 0x400 + m / 0x2000;
    if LEAST <= bits < BEYOND {
      assert (bits - LEAST) / 0x2000 == (e - 112) * 0x400 + m / 0x2000;
    }
  }

  /** Brighter pixels have greater codes, unless both are dark or both bright enough for one exponent, and the mantissa
      of the darker one is the greater. */
  lemma LumaCodesInOrder(x: nat, y: nat)
    requires x <= y < 0x8000_0000
    ensures LumaCode(x) <= LumaCode(y) <==>
              !((y / 0x80_0000 <= 112 || x / 0x80_0000 >= 142) && x % 0x80_0000 / 0x2000 > y % 0x80_0000 / 0x2000)
  {
    var e, f, m, n := x / 0x80_0000, y / 0x80_0000, x % 0x80_0000, y % 0x80_0000;
    assert x / 0x2000 == e * 0x400 + m / 0x2000 && y / 0x2000 == f * 0x400 + n / 0x2000;
    assert e <= f && (e == f ==> m <= n);
  }

  /** It happens: the float just below 2^-15 has the greater code. */
  lemma DarkerHasGreaterCode()
    ensures LumaCode(LEAST - 1) == 1023 && LumaCode(LEAST) == 0
  {}

  // ---------------------------------------------------------------------------------------------
  // One block
  // ---------------------------------------------------------------------------------------------

  function Minimum(s: seq<int>): (m: int)
    requires |s| > 0
    ensures m in s && forall i :: 0 <= i < |s| ==> m <= s[i]
  {
    if |s| == 1 then s[0] else
      var m := Minimum(s[..|s| - 1]);
      if m < s[|s| - 1] then m else s[|s| - 1]
  }

  function Maximum(s: seq<int>): (m: int)
    requires |s| > 0
    ensures m in s && forall i :: 0 <= i < |s| ==> s[i] <= m
  {
    if |s| == 1 then s[0] else
      var m := Maximum(s[..|s| - 1]);
      if m > s[|s| - 1] then m else s[|s| - 1]
  }

  /** The common exponent: the least luma without its mantissa. */
  function Bias(luma: LumaBlock): (b: nat)
    ensures b < LUMA_END && b % 1024 == 0
  {
    Minimum(luma) - Minimum(luma) % 1024
  }

  function Span(luma: LumaBlock): (m: nat)
    ensures m < 0x8000
  {
    Maximum(luma) - Bias(luma)
  }

  /** A luma above the bias. */
  function Above(luma: LumaBlock, k: nat): (x: nat)
    requires k < 16
    ensures x < 0x8000
  {
    luma[k] - Bias(luma)
  }

  /** Leading zeroes of a 15-bit number, counted up to seven. */
  function Zeroes(m: nat): (n: nat)
    requires m < 0x8000
    ensures n <= 7
  {
    if m >= 0x4000 then 0 else if m >= 0x2000 then 1 else if m >= 0x1000 then 2 else if m >= 0x800 then 3
    else if m >= 0x400 then 4 else if m >= 0x200 then 5 else if m >= 0x100 then 6 else 7
  }

  /** The count is that of the zeroes above the highest bit that is set, unless there are more than seven. */
  lemma ZeroesAreLeading(m: nat)
    requires m < 0x8000
    ensures m < Pow2(15 - Zeroes(m)) && (Zeroes(m) < 7 ==> Pow2(14 - Zeroes(m)) <= m)
  {
    Powers();
    assert Pow2(12) == 4096;
    assert Pow2(13) == 8192;
    assert Pow2(14) == 16384;
    assert Pow2(15) == 32768;
  }

  function ShiftOf(luma: LumaBlock): (shift: nat)
    ensures 4 <= shift <= 11
  {
    14 - Zeroes(Span(luma)) - 4 + 1
  }

  /** The four bits that are kept of a luma above the bias, rounded to the nearest, but at most 15. */
  function Quantized(x: nat, shift: nat): (c: nat)
    requires shift >= 1
    ensures c <= 15
  {
    var c := (x + Pow2(shift - 1)) / Pow2(shift);
    if c > 15 then 15 else c
  }

  function LumaByte(luma: LumaBlock, k: nat): (c: nat)
    requires k < 8
    ensures c < 256
  {
    Quantized(Above(luma, 2 * k), ShiftOf(luma)) * 16 + Quantized(Above(luma, 2 * k + 1), ShiftOf(luma))
  }

  function LumaBytes(luma: LumaBlock): (s: seq<int>)
    ensures |s| == 8 && forall k :: 0 <= k < 8 ==> 0 <= s[k] < 256
  {
    seq(8, k requires 0 <= k < 8 => LumaByte(luma, k))
  }

  function Compressed(luma: LumaBlock, r: ChromaBlock, b: ChromaBlock): Block {
    [Bias(luma) / 1024 * 8 + Zeroes(Span(luma))] + LumaBytes(luma) + ChromaBytes(r, b)
  }

  /** Two neighbouring seven bit codes in one byte: x << s in eight bits, and the upper bits of y. */
  function Pack(x: nat, y: nat, s: nat): (c: nat)
    requires x < 128 && y < 128 && 1 <= s <= 7
    ensures c < 256
  {
    PackSplits(x, y, s);
    x * Pow2(s) % 256 + y / Pow2(7 - s)
  }

  lemma PackSplits(x: nat, y: nat, s: nat)
    requires x < 128 && y < 128 && 1 <= s <= 7
    ensures var c := x * Pow2(s) % 256 + y / Pow2(7 - s);
            c < 256 && c / Pow2(s) == x % Pow2(8 - s) && c % Pow2(s) == y / Pow2(7 - s)
  {
    Powers();
    PackAt(x, y, Pow2(s), Pow2(7 - s), Pow2(8 - s));
  }

  lemma PackAt(x: nat, y: nat, p: nat, q: nat, r: nat)
    requires x < 128 && y < 128 && p * q == 128 && p * r == 256 && q > 0 && r > 0
    ensures var c := x * p % 256 + y / q;
            c < 256 && c / p == x % r && c % p == y / q
  {
    var a, m, t := x / r, x % r, y / q;
    ShiftedOut(x, p, r, a, m);
    Quotient(y, q, t);
    MulSwaps(p, q);
    SmallQuotient(y, p, q, t);
    PackedBelow(p, r, m, t);
    DivUnique(p * m + t, p, m, t);
  }

  /** The upper bits of x are lost at the top of the byte. */
  lemma ShiftedOut(x: nat, p: nat, r: nat, a: nat, m: nat)
    requires p * r == 256 && r > 0 && a == x / r && m == x % r
    ensures x * p % 256 == p * m
  {
    assert x == r * a + m;
    MulDistributes(p, r * a, m);
    MulAssoc(p, r, a);
    assert p * m < 256 by {
      MulMonotone(p, m + 1, r);
      MulDistributes(p, m, 1);
    }
    DivUnique(x * p, 256, a, p * m);
  }

  lemma PackedBelow(p: nat, r: nat, m: nat, t: nat)
    requires p * r == 256 && m < r && t < p
    ensures p * m + t < 256
  {
    MulMonotone(p, m + 1, r);
    MulDistributes(p, m, 1);
  }

  function ChromaBytes(r: ChromaBlock, b: ChromaBlock): (s: seq<int>)
    ensures |s| == 7 && forall k :: 0 <= k < 7 ==> 0 <= s[k] < 256
  {
    [Pack(r[0], b[0], 1), Pack(b[0], r[1], 2), Pack(r[1], b[1], 3), Pack(b[1], r[2], 4),
     Pack(r[2], b[2], 5), Pack(b[2], r[3], 6), Pack(r[3], b[3], 7)]
  }

  // What dt_image_uncompress reads off a block

  function BiasOf(block: Block): nat {
    block[0] / 8 * 1024
  }

  function ZeroesOf(block: Block): nat {
    block[0] % 8
  }

  function NibbleOf(block: Block, k: nat): nat
    requires k < 16
  {
    if k % 2 == 0 then block[1 + k / 2] / 16 else block[1 + k / 2] % 16
  }

  function LumaOf(block: Block, k: nat): nat
    requires k < 16
  {
    NibbleOf(block, k) * Pow2(14 - ZeroesOf(block) - 4 + 1) + BiasOf(block)
  }

  function RedOf(block: Block, q: nat): (c: nat)
    requires q < 4
    ensures c < 128
  {
    if q == 0 then block[9] / 2
    else if q == 1 then block[10] % 4 * 32 + block[11] / 8
    else if q == 2 then block[12] % 16 * 8 + block[13] / 32
    else block[14] % 64 * 2 + block[15] / 128
  }

  function BlueOf(block: Block, q: nat): (c: nat)
    requires q < 4
    ensures c < 128
  {
    if q == 0 then block[9] % 2 * 64 + block[10] / 4
    else if q == 1 then block[11] % 8 * 16 + block[12] / 16
    else if q == 2 then block[13] % 32 * 4 + block[14] / 64
    else block[15] % 128
  }

  function Nibbles(s: seq<int>): seq<int> {
    if s == [] then [] else Nibbles(s[..|s|-1]) + [s[|s|-1] / 16, s[|s|-1] % 16]
  }

  /** The number that digits to a base spell out, the first one highest. */
  function BigEndian(s: seq<int>, base: nat): int {
    if s == [] then 0 else BigEndian(s[..|s|-1], base) * base + s[|s|-1]
  }

  lemma {:induction false} NibblesSpell(s: seq<int>)
    ensures |Nibbles(s)| == 2 * |s| && BigEndian(Nibbles(s), 16) == BigEndian(s, 256)
    ensures forall k :: 0 <= k < 2 * |s| ==> Nibbles(s)[k] == if k % 2 == 0 then s[k/2] / 16 else s[k/2] % 16
  {
    if s != [] {
      var t, x := s[..|s|-1], s[|s|-1];
      NibblesSpell(t);
      assert Nibbles(s)[..|Nibbles(s)|-1] == Nibbles(t) + [x / 16];
      assert (Nibbles(t) + [x / 16])[..|Nibbles(t)|] == Nibbles(t);
    }
  }

  /** The chroma codes of a block, as dt_image_uncompress reads them. */
  function CodesOf(block: Block): seq<int> {
    [RedOf(block, 0), BlueOf(block, 0), RedOf(block, 1), BlueOf(block, 1),
     RedOf(block, 2), BlueOf(block, 2), RedOf(block, 3), BlueOf(block, 3)]
  }

  /** A block is one number of 128 bits, the first byte highest: five bits of exponent, three that count zeroes, sixteen
      luma codes of four bits, and red and blue of the four quads in turn, seven bits each. */
  lemma BlockLayout(block: Block)
    ensures block[0] == BiasOf(block) / 1024 * 8 + ZeroesOf(block) && BiasOf(block) % 1024 == 0 && ZeroesOf(block) < 8
    ensures BigEndian(block[1..9], 256) == BigEndian(seq(16, k requires 0 <= k < 16 => NibbleOf(block, k)), 16)
    ensures BigEndian(block[9..], 256) == BigEndian(CodesOf(block), 128)
  {
    NibblesSpell(block[1..9]);
    assert Nibbles(block[1..9]) == seq(16, k requires 0 <= k < 16 => NibbleOf(block, k));
    ChromaSpelled(block);
  }

  lemma Last(s: seq<int>, k: nat, base: nat)
    requires k < |s|
    ensures BigEndian(s[..k+1], base) == BigEndian(s[..k], base) * base + s[k]
  {
    assert s[..k+1][..k] == s[..k];
  }

  /** After k bytes, k codes are spelled out, and the upper k bits, h, of the next one; p is 2^k. */
  lemma Spelled(c: seq<int>, d: seq<int>, k: nat, p: nat, h: int, h': int)
    requires k < |c| && k < |d| && BigEndian(c[..k], 256) == BigEndian(d[..k], 128) * p + h
    requires h * 256 + c[k] == d[k] * (2 * p) + h'
    ensures BigEndian(c[..k+1], 256) == BigEndian(d[..k+1], 128) * (2 * p) + h'
  {
    hide BigEndian;
    Last(c, k, 256);
    Last(d, k, 128);
    var u := BigEndian(d[..k], 128);
    assert (u * p) * 256 == (u * 128) * (2 * p);
    assert (u * 128 + d[k]) * (2 * p) == (u * 128) * (2 * p) + d[k] * (2 * p);
  }

  lemma ChromaSpelled(block: Block)
    ensures BigEndian(block[9..], 256) == BigEndian(CodesOf(block), 128)
  {
    var c, d := block[9..], CodesOf(block);
    Spelled(c, d, 0, 1, 0, c[0] % 2);
    Spelled(c, d, 1, 2, c[0] % 2, c[1] % 4);
    Spelled(c, d, 2, 4, c[1] % 4, c[2] % 8);
    Spelled(c, d, 3, 8, c[2] % 8, c[3] % 16);
    Spelled(c, d, 4, 16, c[3] % 16, c[4] % 32);
    Spelled(c, d, 5, 32, c[4] % 32, c[5] % 64);
    Spelled(c, d, 6, 64, c[5] % 64, c[6] % 128);
    Last(d, 7, 128);
    assert c[..7] == c && d[..8] == d;
  }

  // ---------------------------------------------------------------------------------------------
  // What survives
  // ---------------------------------------------------------------------------------------------

  lemma ChromaSurvives(luma: LumaBlock, r: ChromaBlock, b: ChromaBlock, q: nat)
    requires q < 4
    ensures RedOf(Compressed(luma, r, b), q) == r[q] && BlueOf(Compressed(luma, r, b), q) == b[q]
  {
    hide Bias, Span, Zeroes, LumaBytes, Pack;
    assert Compressed(luma, r, b)[9..] == ChromaBytes(r, b);
    Powers();
    FieldSurvives(0, r[0], b[0], 1);
    FieldSurvives(r[0], b[0], r[1], 1);
    FieldSurvives(b[0], r[1], b[1], 2);
    FieldSurvives(r[1], b[1], r[2], 3);
    FieldSurvives(b[1], r[2], b[2], 4);
    FieldSurvives(r[2], b[2], r[3], 5);
    FieldSurvives(b[2], r[3], b[3], 6);
    EndsSurvive(r[0], b[0], r[3], b[3]);
  }

  /** A code between two others, spread over two bytes. */
  lemma FieldSurvives(x: nat, y: nat, z: nat, s: nat)
    requires x < 128 && y < 128 && z < 128 && 1 <= s <= 6
    ensures Pack(x, y, s) % Pow2(s) * Pow2(7 - s) + Pack(y, z, s + 1) / Pow2(s + 1) == y
  {
    hide Pow2;
    PackSplits(x, y, s);
    PackSplits(y, z, s + 1);
  }

  lemma EndsSurvive(x: nat, y: nat, z: nat, w: nat)
    requires x < 128 && y < 128 && z < 128 && w < 128
    ensures Pack(x, y, 1) / 2 == x && Pack(z, w, 7) % 128 == w
  {
    Powers();
    PackSplits(x, y, 1);
    PackSplits(z, w, 7);
  }

  lemma HeaderSurvives(luma: LumaBlock, r: ChromaBlock, b: ChromaBlock)
    ensures BiasOf(Compressed(luma, r, b)) == Bias(luma)
    ensures ZeroesOf(Compressed(luma, r, b)) == Zeroes(Span(luma))
  {
    hide Bias, Span, Zeroes, LumaBytes, ChromaBytes;
    TwoFields(Bias(luma) / 1024, Zeroes(Span(luma)));
  }

  lemma TwoFields(hi: nat, lo: nat)
    requires lo < 8
    ensures (hi * 8 + lo) / 8 == hi && (hi * 8 + lo) % 8 == lo
  {}

  lemma NibbleSurvives(luma: LumaBlock, r: ChromaBlock, b: ChromaBlock, k: nat)
    requires k < 16
    ensures NibbleOf(Compressed(luma, r, b), k) == Quantized(Above(luma, k), ShiftOf(luma))
  {
    hide Bias, Span, Zeroes, ShiftOf, Quantized, Above, ChromaBytes;
    var j, shift := k / 2, ShiftOf(luma);
    assert Compressed(luma, r, b)[1 + j] == LumaBytes(luma)[j];
    TwoNibbles(Quantized(Above(luma, 2 * j), shift), Quantized(Above(luma, 2 * j + 1), shift));
  }

  lemma TwoNibbles(hi: nat, lo: nat)
    requires hi < 16 && lo < 16
    ensures (hi * 16 + lo) / 16 == hi && (hi * 16 + lo) % 16 == lo
  {}

  /** The span fits in shift + 4 bits, so that four bits are left after the shift. */
  lemma SpanFits(luma: LumaBlock, k: nat)
    requires k < 16
    ensures 0 <= Above(luma, k) <= Span(luma) < 0x8000
    ensures Span(luma) < 16 * Pow2(ShiftOf(luma))
  {
    Powers();
  }

  lemma Powers()
    ensures Pow2(3) == 8 && Pow2(4) == 16 && Pow2(5) == 32 && Pow2(6) == 64 && Pow2(7) == 128 && Pow2(8) == 256
    ensures Pow2(9) == 512 && Pow2(10) == 1024 && Pow2(11) == 2048
  {
    assert Pow2(2) == 4;
    assert Pow2(3) == 8;
    assert Pow2(4) == 16;
    assert Pow2(5) == 32;
    assert Pow2(6) == 64;
    assert Pow2(7) == 128;
    assert Pow2(8) == 256;
    assert Pow2(9) == 512;
    assert Pow2(10) == 1024;
  }

  function Distance(x: int, y: int): nat {
    if x < y then y - x else x - y
  }

  /** Rounding to the nearest multiple of p = 2 * off. */
  lemma Rounding(x: nat, p: nat, off: nat, c: nat)
    requires p == 2 * off && off > 0 && c == (x + off) / p
    ensures c * p - off <= x < c * p + off
    ensures x < 16 * p ==> c <= 16
  {
    var m := (x + off) % p;
    assert x + off == p * c + m;
    if c > 16 { MulMonotone(p, 17, c); }
  }

  /** The luma of a pixel comes back within 2^shift, and within half of that unless it was clamped. */
  lemma LumaSurvives(luma: LumaBlock, r: ChromaBlock, b: ChromaBlock, k: nat)
    requires k < 16
    ensures var shift, c := ShiftOf(luma), Compressed(luma, r, b);
            && LumaOf(c, k) < 0x10000
            && Distance(LumaOf(c, k), luma[k]) < Pow2(shift)
            && ((Above(luma, k) + Pow2(shift - 1)) / Pow2(shift) <= 15 ==>
                  Distance(LumaOf(c, k), luma[k]) <= Pow2(shift - 1))
            && (NibbleOf(c, k) < 15 ==> Distance(LumaOf(c, k), luma[k]) <= Pow2(shift - 1))
  {
    hide Bias, Span, Zeroes, Compressed;
    HeaderSurvives(luma, r, b);
    NibbleSurvives(luma, r, b, k);
    SpanFits(luma, k);
    var shift := ShiftOf(luma);
    var x, p, off := Above(luma, k), Pow2(shift), Pow2(shift - 1);
    Rounding(x, p, off, (x + off) / p);
    PowersAreSmall(shift);
  }

  lemma PowersAreSmall(shift: nat)
    requires 4 <= shift <= 11
    ensures Pow2(shift) <= 2048
  {
    Powers();
  }

  /** The whole block: what dt_image_uncompress reads off what dt_image_compress wrote. */
  lemma BlockSurvives(luma: LumaBlock, r: ChromaBlock, b: ChromaBlock)
    ensures var c := Compressed(luma, r, b);
            && BiasOf(c) == Bias(luma) && ZeroesOf(c) == Zeroes(Span(luma))
            && (forall q :: 0 <= q < 4 ==> RedOf(c, q) == r[q] && BlueOf(c, q) == b[q])
            && (forall k :: 0 <= k < 16 ==>
                  Close(LumaOf(c, k), luma[k], Above(luma, k), NibbleOf(c, k), ShiftOf(luma)))
  {
    hide Compressed, Bias, Zeroes, Span, RedOf, BlueOf, LumaOf, NibbleOf;
    HeaderSurvives(luma, r, b);
    forall q | 0 <= q < 4
      ensures RedOf(Compressed(luma, r, b), q) == r[q] && BlueOf(Compressed(luma, r, b), q) == b[q]
    {
      ChromaSurvives(luma, r, b, q);
    }
    forall k | 0 <= k < 16
      ensures Close(LumaOf(Compressed(luma, r, b), k), luma[k], Above(luma, k), NibbleOf(Compressed(luma, r, b), k),
                    ShiftOf(luma))
    {
      LumaSurvives(luma, r, b, k);
    }
  }

  /** Within 2^shift, and within half of that unless the code was clamped: above is what the four bits stand for, and
      rounds to at most 15.  Whoever reads the block can be sure of that if the four bits are not all set. */
  predicate Close(x: int, y: int, above: nat, nibble: nat, shift: nat)
    requires shift >= 1
  {
    && Distance(x, y) < Pow2(shift)
    && ((above + Pow2(shift - 1)) / Pow2(shift) <= 15 ==> Distance(x, y) <= Pow2(shift - 1))
    && (nibble < 15 ==> Distance(x, y) <= Pow2(shift - 1))
  }

  // ---------------------------------------------------------------------------------------------
  // The loops over one block
  // ---------------------------------------------------------------------------------------------

  /** The luma and chroma part of the loop body of dt_image_compress, from the codes on. */
  method CompressBlock(l16: array<int>, lmin: int, r: ChromaBlock, b: ChromaBlock, out: array<int>, at: nat,
          ghost luma: LumaBlock)
    requires l16[..] == luma && lmin == Minimum(luma) && at + 16 <= out.Length && out != l16
    modifies l16, out
    ensures out[..] == old(out[..at]) + Compressed(luma, r, b) + old(out[at + 16..])
  {
    hide Minimum, Maximum, Zeroes, LumaBytes, ChromaBytes, Span, Above;
    ghost var b0 := out[..];
    var bias := lmin - lmin % 1024;
    var lmax := SubtractBias(l16, bias, luma);
    var nZeroes := CountZeroes(lmax);
    out[at] := bias / 1024 * 8 + nZeroes;
    ghost var b1 := out[..];
    StoreLuma(l16, 14 - nZeroes - 4 + 1, out, at + 1, luma);
    ghost var b2 := out[..];
    StoreChroma(r, b, out, at + 9);
    Assemble(b0, b1, b2, out[..], at, bias / 1024 * 8 + nZeroes, LumaBytes(luma), ChromaBytes(r, b));
  }

  lemma Assemble(b0: seq<int>, b1: seq<int>, b2: seq<int>, b3: seq<int>, at: nat, head: int, luma: seq<int>,
          chroma: seq<int>)
    requires at + 16 <= |b0| && |luma| == 8 && |chroma| == 7 && b1 == b0[at := head]
    requires b2 == b1[..at + 1] + luma + b1[at + 9..] && b3 == b2[..at + 9] + chroma + b2[at + 16..]
    ensures b3 == b0[..at] + ([head] + luma + chroma) + b0[at + 16..]
  {}

  method StoreChroma(r: ChromaBlock, b: ChromaBlock, out: array<int>, at: nat)
    requires at + 7 <= out.Length
    modifies out
    ensures out[..] == old(out[..at]) + ChromaBytes(r, b) + old(out[at + 7..])
  {
    ghost var before, bytes := out[..], ChromaBytes(r, b);
    ChromaBytesAre(r, b);
    hide Pack, ChromaBytes;
    out[at] := Pack(r[0], b[0], 1);
    out[at + 1] := Pack(b[0], r[1], 2);
    out[at + 2] := Pack(r[1], b[1], 3);
    out[at + 3] := Pack(b[1], r[2], 4);
    out[at + 4] := Pack(r[2], b[2], 5);
    out[at + 5] := Pack(b[2], r[3], 6);
    out[at + 6] := Pack(r[3], b[3], 7);
    assert out[at..at + 7] == bytes;
    assert out[..] == out[..at] + out[at..at + 7] + out[at + 7..];
    assert out[..at] == before[..at] && out[at + 7..] == before[at + 7..];
  }

  lemma ChromaBytesAre(r: ChromaBlock, b: ChromaBlock)
    ensures var c := ChromaBytes(r, b);
            && c[0] == Pack(r[0], b[0], 1) && c[1] == Pack(b[0], r[1], 2) && c[2] == Pack(r[1], b[1], 3)
            && c[3] == Pack(b[1], r[2], 4) && c[4] == Pack(r[2], b[2], 5) && c[5] == Pack(b[2], r[3], 6)
            && c[6] == Pack(r[3], b[3], 7)
  {
    hide Pack;
  }

  lemma LumaByteIs(luma: LumaBlock, k: nat)
    requires k < 8
    ensures LumaBytes(luma)[k]
         == Quantized(Above(luma, 2 * k), ShiftOf(luma)) * 16 + Quantized(Above(luma, 2 * k + 1), ShiftOf(luma))
  {}

  /** Subtracts the common exponent and returns the largest difference. */
  method SubtractBias(l16: array<int>, bias: int, ghost luma: LumaBlock) returns (lmax: nat)
    requires l16[..] == luma && bias == Bias(luma)
    modifies l16
    ensures lmax == Span(luma) && l16.Length == 16 && forall m :: 0 <= m < 16 ==> l16[m] == Above(luma, m)
  {
    hide Bias;
    lmax := 0;
    for k := 0 to 16
      invariant forall m :: 0 <= m < 16 ==> l16[m] == if m < k then luma[m] - bias else luma[m]
      invariant 0 <= lmax && (forall m :: 0 <= m < k ==> luma[m] - bias <= lmax)
      invariant lmax == 0 || exists m :: 0 <= m < k && luma[m] - bias == lmax
    {
      l16[k] := l16[k] - bias;
      lmax := if lmax > l16[k] then lmax else l16[k];
    }
    SpanIs(luma, bias, lmax);
  }

  /** Two codes to a byte, rounded and clamped. */
  method StoreLuma(l16: array<int>, shift: nat, out: array<int>, at: nat, ghost luma: LumaBlock)
    requires l16.Length == 16 && at + 8 <= out.Length && out != l16 && shift == ShiftOf(luma)
    requires forall m :: 0 <= m < 16 ==> l16[m] == Above(luma, m)
    modifies l16, out
    ensures out[..] == old(out[..at]) + LumaBytes(luma) + old(out[at + 8..])
  {
    hide Quantized, Above, ShiftOf, LumaBytes;
    var off, unit := Pow2(shift - 1), Pow2(shift);
    for k := 0 to 8
      invariant forall m :: 0 <= m < out.Length && !(at <= m < at + k) ==> out[m] == old(out[m])
      invariant forall m :: 0 <= m < k ==> out[at + m] == LumaBytes(luma)[m]
      invariant forall m :: 2 * k <= m < 16 ==> l16[m] == Above(luma, m)
    {
      LumaByteIs(luma, k);
      QuantizedIs(l16[2 * k], shift);
      QuantizedIs(l16[2 * k + 1], shift);
      l16[2 * k] := (l16[2 * k] + off) / unit;
      l16[2 * k] := if l16[2 * k] > 0xf then 0xf else l16[2 * k];
      l16[2 * k + 1] := (l16[2 * k + 1] + off) / unit;
      l16[2 * k + 1] := if l16[2 * k + 1] > 0xf then 0xf else l16[2 * k + 1];
      out[at + k] := l16[2 * k + 1] + l16[2 * k] * 16;
    }
  }

  lemma QuantizedIs(x: nat, shift: nat)
    requires shift >= 1
    ensures var c := (x + Pow2(shift - 1)) / Pow2(shift); Quantized(x, shift) == if c > 0xf then 0xf else c
  {}

  lemma SpanIs(luma: LumaBlock, bias: int, lmax: int)
    requires bias == Bias(luma) && 0 <= lmax && forall m :: 0 <= m < 16 ==> luma[m] - bias <= lmax
    requires lmax == 0 || exists m :: 0 <= m < 16 && luma[m] - bias == lmax
    ensures lmax == Span(luma)
  {
    var top := Maximum(luma);
    var m :| 0 <= m < 16 && luma[m] == top;
  }

  /** The loop that counts leading zeroes: k runs down from bit 14. */
  method CountZeroes(lmax: nat) returns (nZeroes: nat)
    requires lmax < 0x8000
    ensures nZeroes == Zeroes(lmax)
  {
    Powers();
    nZeroes := 0;
    var k := 0x4000;
    while lmax / k % 2 == 0 && nZeroes < 7
      invariant 0 <= nZeroes <= 7 && lmax < 2 * k
      invariant k == if nZeroes == 0 then 0x4000 else if nZeroes == 1 then 0x2000 else if nZeroes == 2 then 0x1000
                     else if nZeroes == 3 then 0x800 else if nZeroes == 4 then 0x400 else if nZeroes == 5 then 0x200
                     else if nZeroes == 6 then 0x100 else 0x80
      decreases 7 - nZeroes
    {
      assert lmax < k by { BitClear(lmax, k); }
      k := k / 2;
      nZeroes := nZeroes + 1;
    }
    if lmax / k % 2 != 0 { BitSet(lmax, k); }
  }

  lemma BitClear(m: nat, k: nat)
    requires k > 0 && m < 2 * k && m / k % 2 == 0
    ensures m < k
  {
    if m >= k { DivUnique(m, k, 1, m - k); }
  }

  lemma BitSet(m: nat, k: nat)
    requires k > 0 && m < 2 * k && m / k % 2 != 0
    ensures m >= k
  {
    if m < k { DivUnique(m, k, 0, m); }
  }

  // ---------------------------------------------------------------------------------------------
  // Whole images, as a plane of luma codes and two planes of chroma codes, one for each 2x2 quad
  // ---------------------------------------------------------------------------------------------

  function At(plane: seq<int>, w: nat, h: nat, x: nat, y: nat): int
    requires |plane| == w * h && x < w && y < h
  {
    Inside(x, y, w, h);
    plane[x + w * y]
  }

  predicate PlaneOk(plane: seq<int>, w: nat, h: nat, end: nat) {
    |plane| == w * h && forall x, y :: 0 <= x < w && 0 <= y < h ==> 0 <= At(plane, w, h, x, y) < end
  }

  lemma PlaneIs(plane: seq<int>, w: nat, h: nat, end: nat)
    requires PlaneOk(plane, w, h, end)
    ensures |plane| == w * h
  {}

  /** Both dimensions are multiples of four. */
  predicate SizeOk(w: nat, h: nat) {
    w % 4 == 0 && h % 4 == 0 && w > 0
  }

  predicate ImageOk(luma: seq<int>, red: seq<int>, blue: seq<int>, w: nat, h: nat) {
    SizeOk(w, h) && PlaneOk(luma, w, h, LUMA_END) && PlaneOk(red, w / 2, h / 2, 128) && PlaneOk(blue, w / 2, h / 2, 128)
  }

  /** The 16 luma codes, and the four chroma codes, of the block whose first pixel is (i, j). */
  function LumaAt(luma: seq<int>, w: nat, h: nat, i: nat, j: nat): LumaBlock
    requires PlaneOk(luma, w, h, LUMA_END) && i + 4 <= w && j + 4 <= h
  {
    var s := seq(16, k requires 0 <= k < 16 => At(luma, w, h, i + k % 4, j + k / 4));
    s
  }

  function ChromaAt(plane: seq<int>, w: nat, h: nat, i: nat, j: nat): ChromaBlock
    requires PlaneOk(plane, w / 2, h / 2, 128) && i + 4 <= w && j + 4 <= h
  {
    var s := seq(4, q requires 0 <= q < 4 => At(plane, w / 2, h / 2, i / 2 + q % 2, j / 2 + q / 2));
    s
  }

  /** Position of pixel (pi, pj) of quad q in the block, and the order in which dt_image_compress visits it. */
  function Position(q: nat, pj: nat, pi: nat): nat {
    (pi + q % 2 * 2) + 4 * (pj + q / 2 * 2)
  }

  function VisitOf(k: nat): nat {
    (k / 8 * 2 + k % 4 / 2) * 4 + k / 4 % 2 * 2 + k % 2
  }

  lemma VisitIsPosition(q: nat, pj: nat, pi: nat)
    requires q < 4 && pj < 2 && pi < 2
    ensures Position(q, pj, pi) < 16 && VisitOf(Position(q, pj, pi)) == 4 * q + 2 * pj + pi
    ensures Position(q, pj, pi) % 4 == pi + q % 2 * 2 && Position(q, pj, pi) / 4 == pj + q / 2 * 2
  {
    BitsOf(q / 2, pj, q % 2, pi);
  }

  lemma VisitsDiffer(k: nat, l: nat)
    requires k < 16 && l < 16 && VisitOf(k) == VisitOf(l)
    ensures k == l
  {
    hide VisitOf;
    var a, b, c, d := BitsIn(k);
    var a', b', c', d' := BitsIn(l);
  }

  lemma BitsIn(k: nat) returns (a: nat, b: nat, c: nat, d: nat)
    requires k < 16
    ensures a < 2 && b < 2 && c < 2 && d < 2 && k == 8 * a + 4 * b + 2 * c + d
    ensures VisitOf(k) == 8 * a + 4 * c + 2 * b + d
  {
    a, b, c, d := k / 8, k / 4 % 2, k % 4 / 2, k % 2;
  }

  lemma BitsOf(a: nat, b: nat, c: nat, d: nat)
    requires a < 2 && b < 2 && c < 2 && d < 2
    ensures var k := 8 * a + 4 * b + 2 * c + d;
            && k < 16 && k / 8 == a && k / 4 % 2 == b && k % 4 / 2 == c && k % 2 == d
            && k / 4 == 2 * a + b && k % 4 == 2 * c + d
            && VisitOf(k) == 8 * a + 4 * c + 2 * b + d
  {}

  /** The positions that have been visited before the n-th hold the codes of the block, and lmin is their least. */
  ghost predicate Collected(l16: seq<int>, block: LumaBlock, lmin: int, n: nat) {
    && |l16| == 16
    && (forall k :: 0 <= k < 16 && VisitOf(k) < n ==> l16[k] == block[k] && lmin <= block[k])
    && if n == 0 then lmin == 0x7fff else lmin in block
  }

  lemma CollectsOne(l16: seq<int>, l16': seq<int>, block: LumaBlock, lmin: int, q: nat, pj: nat, pi: nat)
    requires q < 4 && pj < 2 && pi < 2 && Collected(l16, block, lmin, 4 * q + 2 * pj + pi)
    requires var k := Position(q, pj, pi); k < 16 && l16' == l16[k := block[k]]
    ensures var x := block[Position(q, pj, pi)];
            Collected(l16', block, if lmin < x then lmin else x, 4 * q + 2 * pj + pi + 1)
  {
    hide VisitOf;
    VisitIsPosition(q, pj, pi);
    var p := Position(q, pj, pi);
    forall k | 0 <= k < 16 && VisitOf(k) < 4 * q + 2 * pj + pi + 1 ensures VisitOf(k) < 4 * q + 2 * pj + pi || k == p {
      if VisitOf(k) == VisitOf(p) { VisitsDiffer(k, p); }
    }
  }

  /** The four pixels of one quad. */
  method CollectQuad(luma: seq<int>, w: nat, h: nat, i: nat, j: nat, q: nat, l16: array<int>, lmin0: int)
    returns (lmin: int)
    requires PlaneOk(luma, w, h, LUMA_END) && i + 4 <= w && j + 4 <= h && q < 4
    requires Collected(l16[..], LumaAt(luma, w, h, i, j), lmin0, 4 * q)
    modifies l16
    ensures Collected(l16[..], LumaAt(luma, w, h, i, j), lmin, 4 * q + 4)
  {
    hide PlaneOk, At, Collected, LumaAt;
    PlaneIs(luma, w, h, LUMA_END);
    lmin := lmin0;
    for pj := 0 to 2
      invariant Collected(l16[..], LumaAt(luma, w, h, i, j), lmin, 4 * q + 2 * pj)
    {
      for pi := 0 to 2
        invariant Collected(l16[..], LumaAt(luma, w, h, i, j), lmin, 4 * q + 2 * pj + pi)
      {
        var io, jo := pi + q % 2 * 2, pj + q / 2 * 2;
        var ii, jj := i + io, j + jo;
        VisitIsPosition(q, pj, pi);
        CollectedIs(l16[..], LumaAt(luma, w, h, i, j), lmin, 4 * q + 2 * pj + pi);
        ghost var before := l16[..];
        LumaAtIs(luma, w, h, i, j, io + 4 * jo);
        l16[io + 4 * jo] := At(luma, w, h, ii, jj);
        CollectsOne(before, l16[..], LumaAt(luma, w, h, i, j), lmin, q, pj, pi);
        lmin := if lmin < l16[io + 4 * jo] then lmin else l16[io + 4 * jo];
      }
    }
  }

  lemma LumaAtIs(luma: seq<int>, w: nat, h: nat, i: nat, j: nat, k: nat)
    requires PlaneOk(luma, w, h, LUMA_END) && i + 4 <= w && j + 4 <= h && k < 16
    ensures LumaAt(luma, w, h, i, j)[k] == At(luma, w, h, i + k % 4, j + k / 4)
  {
    hide PlaneOk, At;
    PlaneIs(luma, w, h, LUMA_END);
  }

  lemma CollectedIs(l16: seq<int>, block: LumaBlock, lmin: int, n: nat)
    requires Collected(l16, block, lmin, n)
    ensures |l16| == 16
  {}

  /** The first part of the loop body of dt_image_compress: collects the codes quad by quad, and the least luma. */
  method Collect(luma: seq<int>, red: seq<int>, blue: seq<int>, w: nat, h: nat, i: nat, j: nat, l16: array<int>,
          r: array<int>, b: array<int>)
    returns (lmin: int)
    requires ImageOk(luma, red, blue, w, h) && i + 4 <= w && j + 4 <= h && i % 4 == 0 && j % 4 == 0
    requires l16.Length == 16 && r.Length == 4 && b.Length == 4 && r != b && r != l16 && b != l16
    modifies l16, r, b
    ensures l16[..] == LumaAt(luma, w, h, i, j) && lmin == Minimum(LumaAt(luma, w, h, i, j))
    ensures r[..] == ChromaAt(red, w, h, i, j) && b[..] == ChromaAt(blue, w, h, i, j)
  {
    hide Minimum, VisitOf, PlaneOk, At, Collected;
    PlaneIs(red, w / 2, h / 2, 128);
    PlaneIs(blue, w / 2, h / 2, 128);
    lmin := 0x7fff;
    NothingCollected(l16[..], LumaAt(luma, w, h, i, j));
    for q := 0 to 4
      invariant Collected(l16[..], LumaAt(luma, w, h, i, j), lmin, 4 * q)
      invariant forall k :: 0 <= k < q ==> r[k] == ChromaAt(red, w, h, i, j)[k] && b[k] == ChromaAt(blue, w, h, i, j)[k]
    {
      lmin := CollectQuad(luma, w, h, i, j, q, l16, lmin);
      r[q] := At(red, w / 2, h / 2, i / 2 + q % 2, j / 2 + q / 2);
      b[q] := At(blue, w / 2, h / 2, i / 2 + q % 2, j / 2 + q / 2);
    }
    AllCollected(l16[..], LumaAt(luma, w, h, i, j), lmin);
  }

  lemma NothingCollected(l16: seq<int>, block: LumaBlock)
    requires |l16| == 16
    ensures Collected(l16, block, 0x7fff, 0)
  {}

  lemma AllCollected(l16: seq<int>, block: LumaBlock, lmin: int)
    requires Collected(l16, block, lmin, 16)
    ensures l16 == block && lmin == Minimum(block)
  {
    hide Minimum;
    assert forall k :: 0 <= k < 16 ==> VisitOf(k) < 16;
    MinimumIs(block, lmin);
  }

  lemma MinimumIs(s: seq<int>, m: int)
    requires m in s && forall k :: 0 <= k < |s| ==> m <= s[k]
    ensures m == Minimum(s)
  {}

  /** The number of blocks in an image, and the block of a pixel. */
  function Blocks(w: nat, h: nat): nat {
    (w / 4) * (h / 4)
  }

  function BlockOf(w: nat, x: nat, y: nat): nat {
    x / 4 + (w / 4) * (y / 4)
  }

  lemma BlockPlace(w: nat, h: nat, x: nat, y: nat)
    requires SizeOk(w, h) && x < w && y < h
    ensures var m := BlockOf(w, x, y);
            m < Blocks(w, h) && m % (w / 4) == x / 4 && m / (w / 4) == y / 4
  {
    Inside(x / 4, y / 4, w / 4, h / 4);
    DivUnique(BlockOf(w, x, y), w / 4, y / 4, x / 4);
  }

  lemma BlockInside(w: nat, h: nat, m: nat)
    requires SizeOk(w, h) && m < Blocks(w, h)
    ensures 4 * (m % (w / 4)) + 4 <= w && 4 * (m / (w / 4)) + 4 <= h
  {
    var bw, bh := w / 4, h / 4;
    var a := m / bw;
    assert m == bw * a + m % bw;
    if a >= bh { MulMonotone(bw, bh, a); }
  }

  /** The bytes of block m. */
  function CodeOf(luma: seq<int>, red: seq<int>, blue: seq<int>, w: nat, h: nat, m: nat): Block
    requires ImageOk(luma, red, blue, w, h) && m < Blocks(w, h)
  {
    BlockInside(w, h, m);
    var i, j := 4 * (m % (w / 4)), 4 * (m / (w / 4));
    Compressed(LumaAt(luma, w, h, i, j), ChromaAt(red, w, h, i, j), ChromaAt(blue, w, h, i, j))
  }

  /** dt_image_compress, from the luma and chroma codes on. */
  method Compress(luma: seq<int>, red: seq<int>, blue: seq<int>, out: array<int>, w: nat, h: nat)
    requires ImageOk(luma, red, blue, w, h) && out.Length == 16 * Blocks(w, h)
    modifies out
    ensures IsCompressed(out[..], luma, red, blue, w, h)
  {
    hide LumaAt, ChromaAt, Compressed, PlaneOk, Minimum, CodeOf, BlockOf, IsCompressed, StoredUpTo, Blocks;
    var l16, r, b := new int[16](_ => 0), new int[4](_ => 0), new int[4](_ => 0);
    var at := 0;
    var j := 0;
    BlocksStart(w);
    NothingStored(out[..], luma, red, blue, w, h);
    BlocksEnd(w, h);
    while j < h
      invariant j % 4 == 0 && at == 16 * BlockOf(w, 0, j) && j <= h
      invariant BlockOf(w, 0, j) <= Blocks(w, h) && StoredUpTo(out[..], luma, red, blue, w, h, BlockOf(w, 0, j))
    {
      var i := 0;
      while i < w
        invariant i % 4 == 0 && i <= w && at == 16 * BlockOf(w, i, j)
        invariant BlockOf(w, i, j) <= Blocks(w, h) && StoredUpTo(out[..], luma, red, blue, w, h, BlockOf(w, i, j))
      {
        NextBlock(w, h, i, j);
        var lmin := Collect(luma, red, blue, w, h, i, j, l16, r, b);
        ghost var before := out[..];
        CompressBlock(l16, lmin, r[..], b[..], out, at, l16[..]);
        CodeIs(luma, red, blue, w, h, i, j);
        Stored(before, out[..], luma, red, blue, w, h, BlockOf(w, i, j));
        at := at + 16;
        i := i + 4;
      }
      NextRow(w, j);
      j := j + 4;
    }
    BlocksEnd(w, h);
    AllStored(out[..], luma, red, blue, w, h);
  }

  ghost predicate StoredUpTo(code: seq<int>, luma: seq<int>, red: seq<int>, blue: seq<int>, w: nat, h: nat, n: nat)
    requires ImageOk(luma, red, blue, w, h) && n <= Blocks(w, h)
  {
    && |code| == 16 * Blocks(w, h)
    && forall m :: 0 <= m < n ==> code[16 * m..16 * m + 16] == CodeOf(luma, red, blue, w, h, m)
  }

  lemma NothingStored(code: seq<int>, luma: seq<int>, red: seq<int>, blue: seq<int>, w: nat, h: nat)
    requires ImageOk(luma, red, blue, w, h) && |code| == 16 * Blocks(w, h)
    ensures StoredUpTo(code, luma, red, blue, w, h, 0)
  {}

  lemma AllStored(code: seq<int>, luma: seq<int>, red: seq<int>, blue: seq<int>, w: nat, h: nat)
    requires ImageOk(luma, red, blue, w, h) && StoredUpTo(code, luma, red, blue, w, h, Blocks(w, h))
    ensures IsCompressed(code, luma, red, blue, w, h)
  {
    hide CodeOf, PlaneOk;
    forall k | 0 <= k < |code| ensures 0 <= code[k] < 256 {
      var m := k / 16;
      assert code[k] == code[16 * m..16 * m + 16][k - 16 * m] == CodeOf(luma, red, blue, w, h, m)[k - 16 * m];
    }
  }

  lemma BlocksStart(w: nat)
    ensures BlockOf(w, 0, 0) == 0
  {}

  lemma BlocksEnd(w: nat, h: nat)
    requires SizeOk(w, h)
    ensures BlockOf(w, 0, h) == Blocks(w, h)
  {}

  lemma NextBlock(w: nat, h: nat, i: nat, j: nat)
    requires SizeOk(w, h) && i < w && j < h && i % 4 == 0 && j % 4 == 0
    ensures i + 4 <= w && j + 4 <= h && BlockOf(w, i + 4, j) == BlockOf(w, i, j) + 1 <= Blocks(w, h)
  {
    BlockPlace(w, h, i, j);
  }

  lemma NextRow(w: nat, j: nat)
    requires w % 4 == 0 && j % 4 == 0
    ensures BlockOf(w, w, j) == BlockOf(w, 0, j + 4)
  {
    MulDistributes(w / 4, j / 4, 1);
  }

  lemma CodeIs(luma: seq<int>, red: seq<int>, blue: seq<int>, w: nat, h: nat, i: nat, j: nat)
    requires ImageOk(luma, red, blue, w, h) && i + 4 <= w && j + 4 <= h && i % 4 == 0 && j % 4 == 0
    ensures BlockOf(w, i, j) < Blocks(w, h)
    ensures CodeOf(luma, red, blue, w, h, BlockOf(w, i, j))
         == Compressed(LumaAt(luma, w, h, i, j), ChromaAt(red, w, h, i, j), ChromaAt(blue, w, h, i, j))
  {
    hide LumaAt, ChromaAt, Compressed, PlaneOk;
    BlockPlace(w, h, i, j);
  }

  /** Block n is stored, and the ones before it stay. */
  lemma Stored(code: seq<int>, code': seq<int>, luma: seq<int>, red: seq<int>, blue: seq<int>, w: nat, h: nat, n: nat)
    requires ImageOk(luma, red, blue, w, h) && n < Blocks(w, h) && StoredUpTo(code, luma, red, blue, w, h, n)
    requires code' == code[..16 * n] + CodeOf(luma, red, blue, w, h, n) + code[16 * n + 16..]
    ensures StoredUpTo(code', luma, red, blue, w, h, n + 1)
  {
    hide CodeOf, PlaneOk, Blocks;
    forall m | 0 <= m < n + 1 ensures code'[16 * m..16 * m + 16] == CodeOf(luma, red, blue, w, h, m) {
      if m < n {
        assert code'[16 * m..16 * m + 16] == code[16 * m..16 * m + 16];
      }
    }
  }

  // ---------------------------------------------------------------------------------------------
  // dt_image_uncompress
  // ---------------------------------------------------------------------------------------------

  /** The quad that position k of a block belongs to. */
  function QuadOf(k: nat): (q: nat)
    requires k < 16
    ensures q < 4
  {
    k / 8 * 2 + k % 4 / 2
  }

  function Lumas(block: Block): seq<int> {
    seq(16, k requires 0 <= k < 16 => LumaOf(block, k))
  }

  function Reds(block: Block): seq<int> {
    seq(16, k requires 0 <= k < 16 => RedOf(block, QuadOf(k)))
  }

  function Blues(block: Block): seq<int> {
    seq(16, k requires 0 <= k < 16 => BlueOf(block, QuadOf(k)))
  }

  predicate InBlock(x: nat, y: nat, i: nat, j: nat) {
    i <= x < i + 4 && j <= y < j + 4
  }

  /** The first n positions of the block at (i, j) show vals, and everything else is as in the old plane. */
  ghost predicate Shows(plane: seq<int>, before: seq<int>, w: nat, h: nat, i: nat, j: nat, n: nat, vals: seq<int>) {
    && |plane| == |before| == w * h && |vals| == 16
    && forall x, y :: 0 <= x < w && 0 <= y < h ==>
         At(plane, w, h, x, y) == if InBlock(x, y, i, j) && (x - i) + 4 * (y - j) < n then vals[(x - i) + 4 * (y - j)]
                                  else At(before, w, h, x, y)
  }

  lemma SetOne(plane: seq<int>, plane': seq<int>, w: nat, h: nat, u: nat, v: nat, val: int, x: nat, y: nat)
    requires |plane| == w * h && x < w && y < h && u < w && v < h
    requires u + w * v < |plane| && plane' == plane[u + w * v := val]
    ensures At(plane', w, h, x, y) == if x == u && y == v then val else At(plane, w, h, x, y)
  {
    Inside(x, y, w, h);
    if x + w * y == u + w * v { PlaceIsUnique(x, y, u, v, w); }
  }

  lemma ShowsOne(plane: seq<int>, plane': seq<int>, before: seq<int>, w: nat, h: nat, i: nat, j: nat, k: nat,
          vals: seq<int>)
    requires Shows(plane, before, w, h, i, j, k, vals) && k < 16 && i + 4 <= w && j + 4 <= h
    requires var p := (i + k % 4) + w * (j + k / 4); p < |plane| && plane' == plane[p := vals[k]]
    ensures Shows(plane', before, w, h, i, j, k + 1, vals)
  {
    hide At;
    forall x, y | 0 <= x < w && 0 <= y < h
      ensures At(plane', w, h, x, y) == if x == i + k % 4 && y == j + k / 4 then vals[k] else At(plane, w, h, x, y)
    {
      SetOne(plane, plane', w, h, i + k % 4, j + k / 4, vals[k], x, y);
    }
  }

  lemma ShowsNone(plane: seq<int>, w: nat, h: nat, i: nat, j: nat, vals: seq<int>)
    requires |plane| == w * h && |vals| == 16
    ensures Shows(plane, plane, w, h, i, j, 0, vals)
  {}

  /** One turn of the block loops of dt_image_uncompress. */
  method UncompressBlock(block: Block, luma: array<int>, red: array<int>, blue: array<int>, w: nat, h: nat, i: nat,
          j: nat)
    requires i + 4 <= w && j + 4 <= h && luma.Length == red.Length == blue.Length == w * h
    requires luma != red && luma != blue && red != blue
    modifies luma, red, blue
    ensures Shows(luma[..], old(luma[..]), w, h, i, j, 16, Lumas(block))
    ensures Shows(red[..], old(red[..]), w, h, i, j, 16, Reds(block))
    ensures Shows(blue[..], old(blue[..]), w, h, i, j, 16, Blues(block))
  {
    hide Shows, At, RedOf, BlueOf, LumaOf;
    var l16 := ReadLuma(block);
    var r := new int[4](q requires 0 <= q < 4 => RedOf(block, q));
    var b := new int[4](q requires 0 <= q < 4 => BlueOf(block, q));
    ShowsNone(luma[..], w, h, i, j, Lumas(block));
    ShowsNone(red[..], w, h, i, j, Reds(block));
    ShowsNone(blue[..], w, h, i, j, Blues(block));
    for k := 0 to 16
      invariant l16[..] == Lumas(block)
      invariant forall q :: 0 <= q < 4 ==> r[q] == RedOf(block, q) && b[q] == BlueOf(block, q)
      invariant Shows(luma[..], old(luma[..]), w, h, i, j, k, Lumas(block))
      invariant Shows(red[..], old(red[..]), w, h, i, j, k, Reds(block))
      invariant Shows(blue[..], old(blue[..]), w, h, i, j, k, Blues(block))
    {
      Inside(i + k % 4, j + k / 4, w, h);
      var p := (i + k % 4) + w * (j + k / 4);
      ghost var l0, r0, b0 := luma[..], red[..], blue[..];
      luma[p] := l16[k];
      red[p] := r[k / 8 * 2 + k % 4 / 2];
      blue[p] := b[k / 8 * 2 + k % 4 / 2];
      ShowsOne(l0, luma[..], old(luma[..]), w, h, i, j, k, Lumas(block));
      ShowsOne(r0, red[..], old(red[..]), w, h, i, j, k, Reds(block));
      ShowsOne(b0, blue[..], old(blue[..]), w, h, i, j, k, Blues(block));
    }
  }

  /** The luma codes of a block; for no input at all do they leave the 16 bits they are stored in. */
  method ReadLuma(block: Block) returns (l16: array<int>)
    ensures fresh(l16) && l16[..] == Lumas(block) && forall k :: 0 <= k < 16 ==> 0 <= l16[k] < 0x10000
  {
    var lbias := block[0] / 8 * 1024;
    var nZeroes := block[0] % 8;
    var shift := 14 - nZeroes - 4 + 1;
    Powers();
    assert Pow2(shift) <= 2048;
    l16 := new int[16](_ => 0);
    for k := 0 to 8
      invariant forall m :: 0 <= m < 16 ==> 0 <= l16[m] < 0x10000
      invariant forall m :: 0 <= m < 2 * k ==> l16[m] == LumaOf(block, m)
    {
      NibblesFit(block[1 + k], Pow2(shift));
      l16[2 * k] := block[1 + k] / 16 * Pow2(shift) + lbias;
      l16[2 * k + 1] := block[1 + k] % 16 * Pow2(shift) + lbias;
      assert LumaOf(block, 2 * k) == l16[2 * k] && LumaOf(block, 2 * k + 1) == l16[2 * k + 1];
    }
  }

  lemma NibblesFit(byte: nat, unit: nat)
    requires byte < 256 && unit <= 2048
    ensures byte / 16 * unit <= 15 * 2048 && byte % 16 * unit <= 15 * 2048
  {
    MulMonotone(byte / 16, unit, 2048);
    MulMonotone(byte % 16, unit, 2048);
  }

  predicate CodeOk(code: seq<int>, w: nat, h: nat) {
    SizeOk(w, h) && |code| == 16 * Blocks(w, h) && forall k :: 0 <= k < |code| ==> 0 <= code[k] < 256
  }

  function BlockAt(code: seq<int>, w: nat, h: nat, m: nat): Block
    requires CodeOk(code, w, h) && m < Blocks(w, h)
  {
    code[16 * m..16 * m + 16]
  }

  /** Position of a pixel in its block. */
  function PlaceOf(x: nat, y: nat): (k: nat)
    ensures k < 16
  {
    x % 4 + 4 * (y % 4)
  }

  /** The pixel (x, y) of the three planes is what its block in the code says. */
  ghost predicate Shown(luma: seq<int>, red: seq<int>, blue: seq<int>, code: seq<int>, w: nat, h: nat, x: nat, y: nat)
    requires CodeOk(code, w, h) && |luma| == |red| == |blue| == w * h && x < w && y < h
  {
    BlockPlace(w, h, x, y);
    var block, k := BlockAt(code, w, h, BlockOf(w, x, y)), PlaceOf(x, y);
    && At(luma, w, h, x, y) == LumaOf(block, k)
    && At(red, w, h, x, y) == RedOf(block, QuadOf(k))
    && At(blue, w, h, x, y) == BlueOf(block, QuadOf(k))
  }

  /** After the block at (i, j): its pixels are shown, and all others are as before. */
  lemma BlockIsShown(luma: seq<int>, red: seq<int>, blue: seq<int>, luma': seq<int>, red': seq<int>, blue': seq<int>,
                     code: seq<int>, w: nat, h: nat, i: nat, j: nat, block: Block, x: nat, y: nat)
    requires CodeOk(code, w, h) && x < w && y < h && i + 4 <= w && j + 4 <= h && i % 4 == 0 && j % 4 == 0
    requires BlockOf(w, i, j) < Blocks(w, h) && block == BlockAt(code, w, h, BlockOf(w, i, j))
    requires Shows(luma', luma, w, h, i, j, 16, Lumas(block)) && Shows(red', red, w, h, i, j, 16, Reds(block))
    requires Shows(blue', blue, w, h, i, j, 16, Blues(block))
    ensures |luma'| == |red'| == |blue'| == w * h == |luma| == |red| == |blue|
    ensures InBlock(x, y, i, j) || Shown(luma, red, blue, code, w, h, x, y) ==>
              Shown(luma', red', blue', code, w, h, x, y)
  {
    hide At, LumaOf, RedOf, BlueOf, BlockAt;
    if InBlock(x, y, i, j) {
      assert x / 4 == i / 4 && y / 4 == j / 4 && x % 4 == x - i && y % 4 == y - j by { FourAt(x, i); FourAt(y, j); }
    }
  }

  lemma FourAt(x: nat, i: nat)
    requires i % 4 == 0 && i <= x < i + 4
    ensures x / 4 == i / 4 && x % 4 == x - i
  {}

  method Uncompress(code: seq<int>, luma: array<int>, red: array<int>, blue: array<int>, w: nat, h: nat)
    requires CodeOk(code, w, h) && luma.Length == red.Length == blue.Length == w * h
    requires luma != red && luma != blue && red != blue
    modifies luma, red, blue
    ensures forall x, y :: 0 <= x < w && 0 <= y < h ==> Shown(luma[..], red[..], blue[..], code, w, h, x, y)
  {
    hide Shows, Shown, CodeOk, BlockAt, BlockOf, Lumas, Reds, Blues;
    CodeIsOk(code, w, h);
    var at := 0;
    var j := 0;
    BlocksStart(w);
    while j < h
      invariant j % 4 == 0 && at == 16 * BlockOf(w, 0, j) && j <= h
      invariant forall x, y :: 0 <= x < w && 0 <= y < j ==> Shown(luma[..], red[..], blue[..], code, w, h, x, y)
    {
      var i := 0;
      while i < w
        invariant i % 4 == 0 && i <= w && at == 16 * BlockOf(w, i, j)
        invariant forall x, y :: 0 <= x < w && 0 <= y < h && (y < j || (y < j + 4 && x < i)) ==>
                    Shown(luma[..], red[..], blue[..], code, w, h, x, y)
      {
        NextBlock(w, h, i, j);
        ghost var l0, r0, b0 := luma[..], red[..], blue[..];
        var block := BlockAt(code, w, h, at / 16);
        UncompressBlock(block, luma, red, blue, w, h, i, j);
        forall x, y | 0 <= x < w && 0 <= y < h && (y < j || (y < j + 4 && x < i + 4))
          ensures Shown(luma[..], red[..], blue[..], code, w, h, x, y)
        {
          BlockIsShown(l0, r0, b0, luma[..], red[..], blue[..], code, w, h, i, j, block, x, y);
        }
        at := at + 16;
        i := i + 4;
      }
      NextRow(w, j);
      j := j + 4;
    }
  }

  lemma CodeIsOk(code: seq<int>, w: nat, h: nat)
    requires CodeOk(code, w, h)
    ensures SizeOk(w, h) && |code| == 16 * Blocks(w, h)
  {}

  ghost predicate IsCompressed(code: seq<int>, luma: seq<int>, red: seq<int>, blue: seq<int>, w: nat, h: nat) {
    && ImageOk(luma, red, blue, w, h) && CodeOk(code, w, h)
    && forall m :: 0 <= m < Blocks(w, h) ==> BlockAt(code, w, h, m) == CodeOf(luma, red, blue, w, h, m)
  }

  /** The block that pixel (x, y) lies in. */
  function LumaAround(luma: seq<int>, red: seq<int>, blue: seq<int>, w: nat, h: nat, x: nat, y: nat): LumaBlock
    requires ImageOk(luma, red, blue, w, h) && x < w && y < h
  {
    LumaAt(luma, w, h, 4 * (x / 4), 4 * (y / 4))
  }

  /** The plane of pixels shows the code of the quad that (x, y) lies in. */
  ghost predicate SameQuad(quads: seq<int>, plane: seq<int>, w: nat, h: nat, x: nat, y: nat)
    requires |quads| == (w / 2) * (h / 2) && |plane| == w * h && x < w && y < h && x / 2 < w / 2 && y / 2 < h / 2
  {
    At(plane, w, h, x, y) == At(quads, w / 2, h / 2, x / 2, y / 2)
  }

  lemma HalfInside(w: nat, h: nat, x: nat, y: nat)
    requires SizeOk(w, h) && x < w && y < h
    ensures x / 2 < w / 2 && y / 2 < h / 2
  {
    HalfBelow(w / 4, w, x);
    HalfBelow(h / 4, h, y);
  }

  lemma HalfBelow(q: nat, w: nat, x: nat)
    requires w == 4 * q && x < w
    ensures x / 2 < w / 2
  {
    assert w / 2 == 2 * q;
  }

  /** A pixel after compression and decompression: its quad's chroma codes come back exactly, its luma code within
      2^shift, where shift is that of its block, and within half of that unless it was clamped. */
  ghost predicate Survives(luma: seq<int>, red: seq<int>, blue: seq<int>,
                           luma': seq<int>, red': seq<int>, blue': seq<int>,
                           w: nat, h: nat, x: nat, y: nat, nibble: nat)
    requires ImageOk(luma, red, blue, w, h) && |luma'| == |red'| == |blue'| == w * h && x < w && y < h
  {
    HalfInside(w, h, x, y);
    && SameQuad(red, red', w, h, x, y) && SameQuad(blue, blue', w, h, x, y)
    && var block := LumaAround(luma, red, blue, w, h, x, y);
       Close(At(luma', w, h, x, y), At(luma, w, h, x, y), Above(block, PlaceOf(x, y)), nibble, ShiftOf(block))
  }

  lemma PixelSurvives(luma: seq<int>, red: seq<int>, blue: seq<int>, code: seq<int>,
                      luma': seq<int>, red': seq<int>, blue': seq<int>, w: nat, h: nat, x: nat, y: nat)
    requires IsCompressed(code, luma, red, blue, w, h) && x < w && y < h && |luma'| == |red'| == |blue'| == w * h
    requires Shown(luma', red', blue', code, w, h, x, y)
    ensures BlockOf(w, x, y) < Blocks(w, h)
    ensures Survives(luma, red, blue, luma', red', blue', w, h, x, y,
                     NibbleOf(BlockAt(code, w, h, BlockOf(w, x, y)), PlaceOf(x, y)))
  {
    hide Compressed, LumaOf, RedOf, BlueOf, NibbleOf, ShiftOf, PlaneOk, Close, At, CodeOk, CodeOf, BlockAt,
      PlaceOf, QuadOf,
      LumaAt, ChromaAt, BlockOf;
    BlockPlace(w, h, x, y);
    var m, i, j, k := BlockOf(w, x, y), 4 * (x / 4), 4 * (y / 4), PlaceOf(x, y);
    CornerOf(w, h, x, y);
    assert BlockAt(code, w, h, m) == CodeOf(luma, red, blue, w, h, m);
    CodeIs(luma, red, blue, w, h, i, j);
    BlockSurvives(LumaAt(luma, w, h, i, j), ChromaAt(red, w, h, i, j), ChromaAt(blue, w, h, i, j));
    CodesHere(luma, red, blue, w, h, x, y, i, j);
  }

  lemma CornerOf(w: nat, h: nat, x: nat, y: nat)
    requires SizeOk(w, h) && x < w && y < h
    ensures 4 * (x / 4) + 4 <= w && 4 * (y / 4) + 4 <= h && BlockOf(w, 4 * (x / 4), 4 * (y / 4)) == BlockOf(w, x, y)
  {}

  /** The codes of pixel (x, y), found in its block. */
  lemma CodesHere(luma: seq<int>, red: seq<int>, blue: seq<int>, w: nat, h: nat, x: nat, y: nat, i: nat, j: nat)
    requires ImageOk(luma, red, blue, w, h) && i + 4 <= w && j + 4 <= h && i == 4 * (x / 4) && j == 4 * (y / 4)
    ensures x < w && y < h && x / 2 < w / 2 && y / 2 < h / 2
    ensures var k := PlaceOf(x, y);
            && LumaAt(luma, w, h, i, j)[k] == At(luma, w, h, x, y)
            && ChromaAt(red, w, h, i, j)[QuadOf(k)] == At(red, w / 2, h / 2, x / 2, y / 2)
            && ChromaAt(blue, w, h, i, j)[QuadOf(k)] == At(blue, w / 2, h / 2, x / 2, y / 2)
  {
    hide PlaneOk, At, PlaceOf, QuadOf;
    PlaneIs(luma, w, h, LUMA_END);
    PlaneIs(red, w / 2, h / 2, 128);
    PlaneIs(blue, w / 2, h / 2, 128);
    QuadPlace(x, y);
  }

  lemma QuadPlace(x: nat, y: nat)
    ensures var k := PlaceOf(x, y);
            && 4 * (x / 4) + k % 4 == x && 4 * (y / 4) + k / 4 == y
            && 4 * (x / 4) / 2 + QuadOf(k) % 2 == x / 2 && 4 * (y / 4) / 2 + QuadOf(k) / 2 == y / 2
  {
    PlaceIs(x % 4, y % 4);
    HalfOf(x);
    HalfOf(y);
  }

  lemma PlaceIs(a: nat, b: nat)
    requires a < 4 && b < 4
    ensures var k := a + 4 * b;
            && k % 4 == a && k / 4 == b
            && (k / 8 * 2 + k % 4 / 2) % 2 == a / 2 && (k / 8 * 2 + k % 4 / 2) / 2 == b / 2
  {}

  lemma HalfOf(x: nat)
    ensures 4 * (x / 4) / 2 + x % 4 / 2 == x / 2
  {}
}
