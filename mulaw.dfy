/** The single-sample mu-law codec of server.js: mulawToLinear and
    linearToMulaw. It is a variant of the mu-law law of ITU-T G.711 with its
    own constants (a bias of 33 on a 16-bit magnitude, a clip at 32767), and
    JavaScript's 32-bit bitwise operators, which matter for quiet samples. */
module Mulaw {
  import opened Pcm16

  function Abs(x: int): nat {
    if x < 0 then -x else x
  }

  function Pow2(n: nat): (r: nat)
    ensures r >= 1
  {
    if n == 0 then 1 else 2 * Pow2(n - 1)
  }

  lemma {:induction false} Pow2Add(a: nat, b: nat)
    ensures Pow2(a + b) == Pow2(a) * Pow2(b)
  {
    if a > 0 {
      Pow2Add(a - 1, b);
    }
  }

  lemma {:induction false} Pow2Monotone(a: nat, b: nat)
    requires a <= b
    ensures Pow2(a) <= Pow2(b)
  {
    if a < b {
      Pow2Monotone(a, b - 1);
    }
  }

  /** The exponent of the highest power of two that is at most v. */
  function Log2(v: nat): nat
    requires v >= 1
  {
    if v < 2 then 0 else 1 + Log2(v / 2)
  }

  lemma {:induction false} Log2Of(v: nat, k: nat)
    requires Pow2(k) <= v < Pow2(k + 1)
    ensures Log2(v) == k
  {
    if k > 0 {
      Log2Of(v / 2, k - 1);
    }
  }

  lemma {:induction false} Log2Bounds(v: nat)
    requires v >= 1
    ensures Pow2(Log2(v)) <= v < Pow2(Log2(v) + 1)
  {
    if v >= 2 {
      Log2Bounds(v / 2);
    }
  }

  // ---------------------------------------------------------------------
  // Decoding: mulawToLinear

  /** mulawToLinear(b) for a byte b. Complementing b and keeping bits 7, 6..4
      and 3..0 gives the sign, the exponent and the mantissa; the magnitude is
      ((mantissa << 1) + 33) << (exponent + 2). Only the low eight bits of ~b
      are inspected, and for a byte they are 255 - b. */
  function MulawToLinear(b: byte): (r: int)
    ensures 132 <= Abs(r) <= 32256
    ensures r < 0 <==> b < 0x80
    ensures IsInt16(r) && r != 0
  {
    var c := 0xFF - b as int;
    var sign := c / 0x80;
    var exponent := (c / 0x10) % 8;
    var mantissa := c % 0x10;
    var linear := ((mantissa * 2) + 33) * Pow2(exponent + 2);
    DecodedMagnitudeBounds(exponent, mantissa);
    if sign != 0 then -linear else linear
  }

  lemma DecodedMagnitudeBounds(exponent: nat, mantissa: nat)
    requires exponent <= 7 && mantissa <= 15
    ensures 132 <= ((mantissa * 2) + 33) * Pow2(exponent + 2) <= 32256
  {
    Pow2Monotone(2, exponent + 2);
    Pow2Monotone(exponent + 2, 9);
    Pow2Values();
    var step := Pow2(exponent + 2);
    assert 33 * step <= ((mantissa * 2) + 33) * step <= 63 * step;
  }

  // ---------------------------------------------------------------------
  // Encoding: linearToMulaw

  const Clip: nat := 32767
  const Bias: nat := 33

  /** |x| clamped to Clip, plus Bias: the value the segment search runs on. */
  function Biased(x: int): (v: nat)
    ensures Bias <= v <= Clip + Bias
  {
    (if Abs(x) > Clip then Clip else Abs(x)) + Bias
  }

  /** The segment of a biased magnitude: the exponent k of the highest power of
      two that is at most v, except that the search starts at 2^14 and so never
      goes higher. */
  function Segment(v: int): (k: nat)
    requires Bias <= v <= Clip + Bias
    ensures 5 <= k <= 14
    ensures Pow2(k) <= v
    ensures k < 14 ==> v < Pow2(k + 1)
  {
    Log2OfBiased(v);
    if Log2(v) < 14 then Log2(v) else 14
  }

  lemma Log2OfBiased(v: int)
    requires Bias <= v <= Clip + Bias
    ensures 5 <= Log2(v) <= 15
    ensures Pow2(Log2(v)) <= v < Pow2(Log2(v) + 1)
    ensures Log2(v) >= 14 ==> Pow2(14) <= v
  {
    Log2Bounds(v);
    var l := Log2(v);
    if l > 15 {
      Pow2Monotone(16, l);
    }
    if l < 5 {
      Pow2Monotone(l + 1, 5);
    }
    if l >= 14 {
      Pow2Monotone(14, l);
    }
  }

  /** The segment is the only k in 5..14 that bounds v as Segment's contract says. */
  lemma SegmentUnique(v: int, k: nat)
    requires Bias <= v <= Clip + Bias
    requires 5 <= k <= 14 && Pow2(k) <= v && (k < 14 ==> v < Pow2(k + 1))
    ensures Segment(v) == k
  {
    var s := Segment(v);
    if s < k {
      Pow2Monotone(s + 1, k);
    } else if k < s {
      Pow2Monotone(k + 1, s);
    }
  }

  /** The mantissa field the encoder computes: the position of v within its
      segment, in sixteenths of the segment. It reaches 16 when v is at least
      2^15, which the clip at 32767 plus the bias allows. */
  function Mantissa(v: int): (m: nat)
    requires Bias <= v <= Clip + Bias
    ensures m <= 15 || (m == 16 && Segment(v) == 14)
    ensures m == 16 <==> v >= 0x8000
  {
    MantissaBounds(v);
    (v - Pow2(Segment(v))) / Pow2(Segment(v) - 4)
  }

  lemma MantissaBounds(v: int)
    requires Bias <= v <= Clip + Bias
    ensures var k := Segment(v); var m := (v - Pow2(k)) / Pow2(k - 4);
      0 <= m && (m <= 15 || (m == 16 && k == 14)) && (m == 16 <==> v >= 0x8000)
  {
    var k := Segment(v);
    var q := Pow2(k - 4);
    Pow2Add(k - 4, 4);
    Pow2Values();
    var a := v - Pow2(k);
    if k < 14 {
      Pow2Add(k, 1);
      Pow2Monotone(k + 1, 14);
      DivBelow(a, q, 16);
    } else {
      assert q == 1024;
    }
  }

  lemma Pow2Values()
    ensures Pow2(1) == 2 && Pow2(4) == 16 && Pow2(5) == 32 && Pow2(7) == 128
    ensures Pow2(10) == 1024 && Pow2(14) == 0x4000 && Pow2(15) == 0x8000
  {
    assert Pow2(2) == 4;
    assert Pow2(3) == 8;
    assert Pow2(4) == 16;
    assert Pow2(5) == 32;
    assert Pow2(6) == 64;
    assert Pow2(7) == 128;
    assert Pow2(8) == 256;
    assert Pow2(9) == 512;
    assert Pow2(10) == 1024;
    assert Pow2(11) == 2048;
    assert Pow2(12) == 4096;
    assert Pow2(13) == 8192;
    assert Pow2(14) == 0x4000;
  }

  lemma DivMod(a: int, d: int)
    requires d > 0
    ensures a == d * (a / d) + a % d && 0 <= a % d < d
  {
  }

  lemma Distribute(m: int, q: int)
    ensures (2 * m + 33) * q == (2 * q) * m + 33 * q
  {
  }

  /** A byte is its bit 7, its bits 6..4 and its bits 3..0. */
  lemma ByteFields(c: int)
    requires 0 <= c < 0x100
    ensures c == 0x80 * (c / 0x80) + 0x10 * ((c / 0x10) % 8) + c % 0x10
    ensures c / 0x80 == (if c >= 0x80 then 1 else 0)
  {
  }

  lemma DivBelow(a: int, q: int, n: int)
    requires 0 <= a < n * q && q > 0
    ensures 0 <= a / q < n
  {
    assert a == q * (a / q) + a % q;
  }

  /** Two's-complement 32-bit form of v, as a JavaScript bitwise operator sees it. */
  function Int32Bits(v: int): bv32
    requires -0x8000_0000 <= v < 0x8000_0000
  {
    if v >= 0 then v as bv32 else !((-v - 1) as bv32)
  }

  /** ~(sign | (exponent << 4) | mantissa) on 32-bit words, the word linearToMulaw
      masks with 0xFF. */
  function PackWord(sign: int, exponent: int, mantissa: int): bv32
    requires sign == 0 || sign == 0x80
    requires -2 <= exponent <= 7
    requires 0 <= mantissa <= 16
  {
    !((sign as bv32) | (Int32Bits(exponent) << 4) | (mantissa as bv32))
  }

  /** word & 0xFF, as a byte. */
  function Low8(word: bv32): byte {
    ((word & 0xFF) as bv8) as int as byte
  }

  /** The low byte of ~(sign | (exponent << 4) | mantissa), written out as
      arithmetic (PackedByteIsLow8 proves the two agree). A negative exponent
      is all ones above bit 4 and so covers the sign bit; a mantissa of 16
      sets bit 4, which exponent 7 has set already. */
  function PackedByte(sign: int, exponent: int, mantissa: int): byte
    requires sign == 0 || sign == 0x80
    requires -2 <= exponent <= 7
    requires 0 <= mantissa <= 15 || (mantissa == 16 && exponent == 7)
  {
    if exponent == -2 then (31 - mantissa) as byte
    else if exponent == -1 then (15 - mantissa) as byte
    else if mantissa == 16 then (255 - sign - 16 * exponent) as byte
    else (255 - sign - 16 * exponent - mantissa) as byte
  }

  /** The arithmetic form agrees with JavaScript's 32-bit bitwise packing. */
  lemma PackedByteIsLow8(sign: int, exponent: int, mantissa: int)
    requires sign == 0 || sign == 0x80
    requires -2 <= exponent <= 7
    requires 0 <= mantissa <= 15 || (mantissa == 16 && exponent == 7)
    ensures PackedByte(sign, exponent, mantissa) == Low8(PackWord(sign, exponent, mantissa))
  {
    PackLowByte(sign, exponent, mantissa);
  }

  /** The byte linearToMulaw returns for x. */
  function MulawOf(x: int): byte {
    var v := Biased(x);
    PackedByte(if x < 0 then 0x80 else 0, Segment(v) - 7, Mantissa(v))
  }

  /** linearToMulaw(linear), with the source's segment search: starting at
      2^14, it halves the candidate power until one fits into the biased
      magnitude, counting the exponent down from 7. The search always stops by
      2^5 because the biased magnitude is at least 33, so the exponent ends in
      -2..7, and the final packing is done on 32-bit words. */
  method LinearToMulaw(input: int) returns (mulaw: byte)
    ensures mulaw == MulawOf(input)
  {
    var sign := if input < 0 then 0x80 else 0;
    var linear := Abs(input);
    if linear > 32767 {
      linear := 32767;
    }
    linear := linear + 33;
    ghost var v := linear;
    var exponent := 7;
    var i := 0x4000;
    assert i == Pow2(14) by { Pow2Values(); }
    while i > 0
      invariant -2 <= exponent <= 7
      invariant i == Pow2(exponent + 7)
      invariant linear == v
      invariant exponent < 7 ==> v < 2 * i
    {
      if linear >= i {
        linear := linear - i;
        break;
      }
      Pow2AtMost32(exponent + 7);
      exponent := exponent - 1;
      i := i / 2;
    }
    SearchEnd(input, exponent, linear);
    assert (if input < 0 then 0x80 else 0) == sign;
    var mantissa := linear / Pow2(exponent + 3);
    assert exponent == Segment(Biased(input)) - 7 && mantissa == Mantissa(Biased(input));
    var word := PackWord(sign, exponent, mantissa);
    mulaw := Low8(word);
    PackedByteIsLow8(sign, exponent, mantissa);
  }

  lemma Pow2AtMost32(n: nat)
    ensures n <= 5 ==> Pow2(n) <= 32
  {
    if n <= 5 {
      Pow2Monotone(n, 5);
      Pow2Values();
    }
  }

  /** Where the segment search of LinearToMulaw stops: at the segment of the
      biased magnitude, leaving the offset within it. */
  lemma SearchEnd(input: int, exponent: int, rest: int)
    requires -2 <= exponent <= 7
    requires rest + Pow2(exponent + 7) == Biased(input) && rest >= 0
    requires exponent < 7 ==> Biased(input) < 2 * Pow2(exponent + 7)
    ensures exponent + 7 == Segment(Biased(input))
    ensures rest / Pow2(exponent + 3) == Mantissa(Biased(input))
  {
    SegmentUnique(Biased(input), exponent + 7);
  }

  // ---------------------------------------------------------------------
  // What the encoder and the decoder do together

  /** The byte linearToMulaw packs for a sign, an exponent 0..7 and a
      mantissa 0..15 decodes back to exactly those fields. */
  lemma DecodePacked(sign: int, e: int, m: int)
    requires sign == 0 || sign == 0x80
    requires 0 <= e <= 7 && 0 <= m <= 15
    ensures MulawToLinear(PackedByte(sign, e, m)) ==
      if sign == 0x80 then -((2 * m + 33) * Pow2(e + 2)) else (2 * m + 33) * Pow2(e + 2)
  {
    var c := 0xFF - PackedByte(sign, e, m) as int;
    assert c == sign + 16 * e + m;
    assert c / 0x80 == sign / 0x80;
    assert (c / 0x10) % 8 == e;
    assert c % 0x10 == m;
  }

  /** Away from both ends of the range the codec keeps the sign, and the
      decoded magnitude is within half a quantisation step of |s|, shifted by
      the bias of 33: with 2^k the highest power of two at most |s| + 33, the
      step is 2^(k-4) and the error lies in [34 - 2^(k-5), 33 + 2^(k-5)]. */
  lemma RoundTrip(s: int, k: nat)
    requires 95 <= Abs(s) <= 32734
    requires Pow2(k) <= Abs(s) + 33 < Pow2(k + 1)
    ensures var r := MulawToLinear(MulawOf(s));
      (r < 0 <==> s < 0) &&
      34 - Pow2(k) / 32 <= Abs(r) - Abs(s) <= 33 + Pow2(k) / 32
  {
    var v := Abs(s) + 33;
    assert v == Biased(s);
    Pow2Values();
    if k < 7 {
      Pow2Monotone(k + 1, 7);
    }
    if k > 14 {
      Pow2Monotone(15, k);
    }
    SegmentUnique(v, k);
    var e := k - 7;
    var m := Mantissa(v);
    var sign := if s < 0 then 0x80 else 0;
    assert m <= 15;
    DecodePacked(sign, e, m);
    var q := Pow2(e + 2);
    Pow2Add(e + 2, 1);
    Pow2Add(e + 2, 5);
    assert Pow2(k - 4) == 2 * q && Pow2(k) == 32 * q;
    assert Pow2(k) / 32 == q;
    var rest := v - 32 * q;
    assert m == rest / (2 * q);
    var r := rest % (2 * q);
    DivMod(rest, 2 * q);
    assert rest == (2 * q) * m + r;
    var magnitude := (2 * m + 33) * q;
    Distribute(m, q);
    assert Abs(MulawToLinear(MulawOf(s))) == magnitude;
    assert magnitude - Abs(s) == q + 33 - r;
  }

  /** For |s| <= 94 the exponent found is -1 or -2, and JavaScript's 32-bit
      operators spread its ones over the sign and exponent bits: the byte is
      the same for s and -s, and it always decodes to a loud negative value. */
  lemma QuietSamplesLoseSign(s: int)
    requires Abs(s) <= 94
    ensures MulawOf(s) == MulawOf(-s)
    ensures Abs(s) <= 30 ==> MulawToLinear(MulawOf(s)) == -((2 * ((Abs(s) + 1) / 2) + 33) * 256)
    ensures Abs(s) >= 31 ==> MulawToLinear(MulawOf(s)) == -((2 * ((Abs(s) - 31) / 4) + 33) * 512)
  {
    assert Biased(s) == Biased(-s);
    if Abs(s) <= 30 {
      ExponentMinusTwo(s);
    } else {
      ExponentMinusOne(s);
    }
  }

  lemma ExponentMinusTwo(s: int)
    requires Abs(s) <= 30
    ensures MulawToLinear(MulawOf(s)) == -((2 * ((Abs(s) + 1) / 2) + 33) * 256)
  {
    var v := Abs(s) + 33;
    var m := (Abs(s) + 1) / 2;
    assert MulawOf(s) as int == 31 - m by {
      assert v == Biased(s);
      Pow2Values();
      SegmentUnique(v, 5);
      assert Mantissa(v) == m;
    }
    DecodeQuiet(MulawOf(s), 6, m);
  }

  lemma ExponentMinusOne(s: int)
    requires 31 <= Abs(s) <= 94
    ensures MulawToLinear(MulawOf(s)) == -((2 * ((Abs(s) - 31) / 4) + 33) * 512)
  {
    var v := Abs(s) + 33;
    var m := (Abs(s) - 31) / 4;
    assert MulawOf(s) as int == 15 - m by {
      assert v == Biased(s);
      Pow2Values();
      SegmentUnique(v, 6);
      assert Mantissa(v) == m;
    }
    DecodeQuiet(MulawOf(s), 7, m);
  }

  /** A byte whose complement has the sign bit set, exponent e and mantissa m. */
  lemma DecodeQuiet(b: byte, e: int, m: int)
    requires 6 <= e <= 7 && 0 <= m <= 15
    requires b as int == 0x7F - 0x10 * e - m
    ensures MulawToLinear(b) == -((2 * m + 33) * (if e == 6 then 256 else 512))
  {
    var c := 0xFF - b as int;
    assert c == 0x80 + 0x10 * e + m;
    assert c / 0x80 == 1 && (c / 0x10) % 8 == e && c % 0x10 == m;
    assert Pow2(8) == 256 && Pow2(9) == 512 by { Pow2Values(); }
  }

  /** Silence is sent as 0x1F, which decodes to -8448. */
  lemma SilenceDecodesLoud()
    ensures MulawOf(0) == 0x1F
    ensures MulawToLinear(0x1F) == -8448
  {
    QuietSamplesLoseSign(0);
    assert Pow2(8) == 256 by { Pow2Values(); }
  }

  /** For |s| >= 32735 the biased magnitude reaches 2^15, the mantissa
      becomes 16 and its bit disappears into the exponent field: the byte
      says exponent 7, mantissa 0, which decodes to +-16896, about half the
      input. Every int16 input gives a byte, -32768 included. */
  lemma LoudSamplesHalve(s: int)
    requires Abs(s) >= 32735
    ensures MulawOf(s) == if s < 0 then 0x0F else 0x8F
    ensures MulawToLinear(MulawOf(s)) == if s < 0 then -16896 else 16896
  {
    var v := Biased(s);
    assert v >= 0x8000;
    Pow2Values();
    assert Segment(v) == 14;
    assert Pow2(9) == 512;
  }

  /** Inputs beyond the clip encode like the clip itself. */
  lemma ClipsAt32767(x: int)
    requires Abs(x) >= Clip
    ensures MulawOf(x) == MulawOf(if x < 0 then -(Clip as int) else Clip)
  {
  }

  /** Distinct bytes decode to distinct samples: the magnitude is an odd
      number times 2^(exponent + 2), and sign, exponent and mantissa can be read
      back from it. */
  lemma DecodeInjective(a: byte, b: byte)
    requires MulawToLinear(a) == MulawToLinear(b)
    ensures a == b
  {
    var ca, cb := 0xFF - a as int, 0xFF - b as int;
    var ea, eb := (ca / 0x10) % 8, (cb / 0x10) % 8;
    var ma, mb := ca % 0x10, cb % 0x10;
    assert (2 * ma + 33) * Pow2(ea + 2) == (2 * mb + 33) * Pow2(eb + 2) by {
      DecodedFields(a);
      DecodedFields(b);
    }
    assert ma == mb && ea == eb by {
      OddPart(ma);
      OddPart(mb);
      OddTimesPow2(2 * ma + 33, ea + 2, 2 * mb + 33, eb + 2);
    }
    assert ca / 0x80 == cb / 0x80 by {
      assert (a < 0x80) == (b < 0x80);
      ByteFields(ca);
      ByteFields(cb);
    }
    ByteFields(ca);
    ByteFields(cb);
  }

  lemma OddPart(m: int)
    ensures (2 * m + 33) % 2 == 1
  {
  }

  /** The magnitude mulawToLinear builds from the fields of ~b. */
  lemma DecodedFields(b: byte)
    ensures var c := 0xFF - b as int;
      Abs(MulawToLinear(b)) == (2 * (c % 0x10) + 33) * Pow2((c / 0x10) % 8 + 2)
  {
  }

  lemma {:induction false} OddTimesPow2(x: int, i: nat, y: int, j: nat)
    requires x % 2 == 1 && y % 2 == 1
    requires x * Pow2(i) == y * Pow2(j)
    ensures x == y && i == j
  {
    ScaledParity(x, i);
    ScaledParity(y, j);
    if i > 0 && j > 0 {
      assert x * Pow2(i - 1) == y * Pow2(j - 1);
      OddTimesPow2(x, i - 1, y, j - 1);
    }
  }

  lemma ScaledParity(x: int, i: nat)
    requires x % 2 == 1
    ensures (x * Pow2(i)) % 2 == (if i == 0 then 1 else 0)
  {
    if i > 0 {
      assert x * Pow2(i) == 2 * (x * Pow2(i - 1));
    }
  }

  lemma Int32BitsOfSmall(e: int)
    requires 0 <= e <= 7
    ensures Int32Bits(e) <= 7 && (e == 7 <==> Int32Bits(e) == 7)
    ensures (Int32Bits(e) & 0xFF) as bv8 as int == e
  {
    var b := e as bv32;
    assert b as int == e;
  }

  lemma Int32BitsOfMinusTwo()
    ensures Int32Bits(-2) == 0xFFFF_FFFE && (Int32Bits(-2) & 0xFF) as bv8 == 0xFE
  {
  }

  lemma Int32BitsOfMinusOne()
    ensures Int32Bits(-1) == 0xFFFF_FFFF && (Int32Bits(-1) & 0xFF) as bv8 == 0xFF
  {
  }

  lemma SignBits(sign: int)
    requires sign == 0 || sign == 0x80
    ensures (sign as bv32) == 0 || (sign as bv32) == 0x80
    ensures (sign as bv32) as bv8 as int == sign
  {
  }

  lemma MantissaBits(m: int)
    requires 0 <= m <= 16
    ensures (m as bv32) <= 16 && (m == 16 <==> (m as bv32) == 16)
    ensures (m as bv32) as bv8 as int == m
  {
  }

  /** The low byte of the packed 32-bit word, computed in 8 bits. */
  lemma LowByteOfWord(sb: bv32, eb: bv32, mb: bv32)
    requires sb == 0 || sb == 0x80
    requires eb <= 7 || eb >= 0xFFFF_FFFE
    requires mb <= 15 || (mb == 16 && eb == 7)
    ensures ((!(sb | (eb << 4) | mb)) & 0xFF) as bv8
         == !((sb as bv8) | ((eb & 0xFF) as bv8 << 4) | (mb as bv8))
  {
  }

  lemma PackedByteBits(s8: bv8, e8: bv8, m8: bv8, sign: int, e: int, m: int)
    requires s8 as int == sign && m8 as int == m
    requires sign == 0 || sign == 0x80
    requires -2 <= e <= 7
    requires 0 <= m <= 15 || (m == 16 && e == 7)
    requires e >= 0 ==> e8 as int == e
    requires e == -2 ==> e8 == 0xFE
    requires e == -1 ==> e8 == 0xFF
    ensures (!(s8 | (e8 << 4) | m8)) as int ==
      if e == -2 then 31 - m
      else if e == -1 then 15 - m
      else if m == 16 then 255 - sign - 16 * e
      else 255 - sign - 16 * e - m
  {
  }

  lemma PackLowByte(sign: int, e: int, m: int)
    requires sign == 0 || sign == 0x80
    requires -2 <= e <= 7
    requires 0 <= m <= 15 || (m == 16 && e == 7)
    ensures (PackWord(sign, e, m) & 0xFF) as bv8 as int ==
      if e == -2 then 31 - m
      else if e == -1 then 15 - m
      else if m == 16 then 255 - sign - 16 * e
      else 255 - sign - 16 * e - m
  {
    SignBits(sign);
    MantissaBits(m);
    if e >= 0 {
      Int32BitsOfSmall(e);
    } else if e == -2 {
      Int32BitsOfMinusTwo();
    } else {
      Int32BitsOfMinusOne();
    }
    LowByteOfWord(sign as bv32, Int32Bits(e), m as bv32);
    PackedByteBits((sign as bv32) as bv8, (Int32Bits(e) & 0xFF) as bv8, (m as bv32) as bv8, sign, e, m);
  }
}
