/**
 * base/string.h: the UTF-8 readers.
 *
 * `Decoder` is `utf8_decode`, a copyable cursor over a byte string with a
 * sticky validity flag.  `next()` reads the byte layout of section 3 of
 * RFC 3629 but performs none of that RFC's checks (overlong forms,
 * surrogates, values above U+10FFFF, lead bytes F8..FF are all accepted).
 * `Utf8Iterator` is the older `utf8_iteratorT`, which reads past a broken
 * sequence instead of flagging it.
 *
 * Bytes are integers 0..255.  Bit tests of the source are written with
 * arithmetic: `c & f` for a power of two `f` is `(c / f) % 2 == 1`, and
 * `c & m` for an all-ones mask `m` is `c % (m + 1)`.
 */
module Utf8 {

  newtype byte = x: int | 0 <= x < 256

  function Pow2(k: nat): (r: nat)
    ensures r >= 1
  {
    if k == 0 then 1 else 2 * Pow2(k - 1)
  }

  /** Number of bits needed to write `f`. */
  function Bits(f: nat): nat
  {
    if f == 0 then 0 else 1 + Bits(f / 2)
  }

  /**
   * The counting loops of both readers: how many consecutive bits of `c`
   * are set, starting with bit `f` and moving toward bit 0.
   */
  function LeadingOnes(c: int, f: nat): (r: nat)
    ensures r <= Bits(f)
    decreases f
  {
    if f > 0 && (c / f) % 2 == 1 then 1 + LeadingOnes(c, f / 2) else 0
  }

  /**
   * `0b0001'1111 >> (n-1)`: the data bits a lead byte keeps when `n` bytes
   * follow it (the shift leaves `6 - n` low bits set, none once n >= 6).
   */
  function LeadMask(n: nat): nat
    requires 1 <= n <= 7
  {
    if n <= 6 then Pow2(6 - n) - 1 else 0
  }

  /** `c &= 0x1F >> (n-1)`: the bits of a lead byte that start the code point. */
  function LeadBits(c: int, n: nat): int
    requires 1 <= n <= 7
  {
    c % (LeadMask(n) + 1)
  }

  /**
   * A value brought back into a 32-bit `int`: the source's `int` keeps
   * only the low 32 bits, read as two's complement, of a shift that
   * overflows it (the wrap the compilers define, and C++20 prescribes).
   */
  function Int32(v: int): (r: int)
    ensures -0x8000_0000 <= r < 0x8000_0000
    ensures (v - r) % 0x1_0000_0000 == 0
    ensures -0x8000_0000 <= v < 0x8000_0000 ==> r == v
  {
    if -0x8000_0000 <= v < 0x8000_0000 then v
    else
      var m := v % 0x1_0000_0000;
      if m < 0x8000_0000 then m else m - 0x1_0000_0000
  }

  /** `(c << 6) | (b & 0x3F)` on an `int`: six more bits from a 10xxxxxx byte, within 32 bits. */
  function Shift6(c: int, b: byte): (r: int)
    ensures -0x8000_0000 <= c * 64 + b as int % 64 < 0x8000_0000 ==> r == c * 64 + b as int % 64
  {
    Int32(c * 64 + b as int % 64)
  }

  // ---------------------------------------------------------------------
  // utf8_decode
  // ---------------------------------------------------------------------

  /** The state of a `utf8_decode`: the string, the cursor `m_it` (as an offset) and `m_valid`. */
  datatype Decoder = Decoder(str: seq<byte>, pos: nat, valid: bool) {

    predicate Wf()
    {
      pos <= |str|
    }

    /** utf8_decode::is_end */
    predicate IsEnd()
    {
      pos == |str|
    }
  }

  /** A decoder at the start of `s`; `m_valid` starts true. */
  function Init(s: seq<byte>): (d: Decoder)
    ensures d.Wf() && d.str == s && d.pos == 0 && d.valid
  {
    Decoder(s, 0, true)
  }

  /** The byte at `p` is of the form 10xxxxxx. */
  predicate IsContinuation(b: byte)
  {
    b as int / 64 == 2
  }

  /**
   * The loop `while (n--)` of `next()`: `n` more bytes, each of the form
   * 10xxxxxx, are folded six bits at a time into the 32-bit `acc`.  A missing or
   * malformed byte clears the flag and yields 0; the malformed byte is
   * consumed.
   */
  function Continue(str: seq<byte>, p: nat, n: nat, acc: int, valid: bool): (r: (int, Decoder))
    requires p <= |str|
    ensures r.1.str == str && r.1.Wf() && p <= r.1.pos
    ensures n > 0 && p < |str| ==> p < r.1.pos
    ensures r.1.valid ==> valid
    ensures r.1.valid != valid ==> r.0 == 0
    ensures n > 0 && p == |str| ==> r == (0, Decoder(str, p, false))
    decreases n
  {
    if n == 0 then (acc, Decoder(str, p, valid))
    else if p == |str| then (0, Decoder(str, p, false))
    else if !IsContinuation(str[p]) then (0, Decoder(str, p + 1, false))
    else Continue(str, p + 1, n - 1, Shift6(acc, str[p]), valid)
  }

  /**
   * What one call of `utf8_decode::next()` returns and leaves behind.
   * At the end it returns 0 and changes nothing; an ASCII byte is returned
   * as is; a lone 10xxxxxx byte is consumed, yields 0 and clears the flag;
   * the flag is never set back to true.
   */
  function Step(d: Decoder): (r: (int, Decoder))
    requires d.Wf()
    ensures r.1.str == d.str && r.1.Wf() && d.pos <= r.1.pos
    ensures d.pos < |d.str| ==> d.pos < r.1.pos
    ensures d.IsEnd() ==> r == (0, d)
    ensures d.pos < |d.str| && d.str[d.pos] < 0x80 ==> r == (d.str[d.pos] as int, d.(pos := d.pos + 1))
    ensures d.pos < |d.str| && 0x80 <= d.str[d.pos] < 0xC0 ==> r == (0, Decoder(d.str, d.pos + 1, false))
    ensures r.1.valid ==> d.valid
    ensures r.1.valid != d.valid ==> r.0 == 0
  {
    if d.pos == |d.str| then (0, d)
    else
      var c := d.str[d.pos] as int;
      if c < 0x80 then (c, d.(pos := d.pos + 1))
      else
        LeadCounts(c);
        var n := LeadingOnes(c, 0x40);
        if n == 0 then (0, Decoder(d.str, d.pos + 1, false))
        else Continue(d.str, d.pos + 1, n, LeadBits(c, n), d.valid)
  }

  /** utf8_decode::next(), with the counting loop and the continuation loop of the source. */
  method Next(d: Decoder) returns (c: int, d': Decoder)
    requires d.Wf()
    ensures (c, d') == Step(d)
  {
    if d.pos == |d.str| {
      return 0, d;
    }
    var it := d.pos;
    c := d.str[it] as int;
    it := it + 1;
    if c >= 0x80 {
      var n := 0;
      var f := 0x40;
      while f > 0 && (c / f) % 2 == 1
        invariant f >= 0 && n + LeadingOnes(c, f) == LeadingOnes(c, 0x40)
        decreases f
      {
        n := n + 1;
        f := f / 2;
      }
      LeadCounts(c);
      assert n == LeadingOnes(c, 0x40) == LeadLength(c);
      if n == 0 {
        return 0, Decoder(d.str, it, false);
      }
      assert Step(d) == Continue(d.str, it, n, LeadBits(c, n), d.valid);
      c := LeadBits(c, n);
      c, d' := ReadContinuation(d.str, it, n, c, d.valid);
      return;
    }
    return c, d.(pos := it);
  }

  /** The `while (n--)` loop of `next()`, from offset `p` with `n` bytes still to read. */
  method ReadContinuation(str: seq<byte>, p: nat, n: nat, acc: int, valid: bool) returns (c: int, d': Decoder)
    requires p <= |str|
    ensures (c, d') == Continue(str, p, n, acc, valid)
  {
    var it := p;
    var k := n;
    c := acc;
    while k > 0
      invariant p <= it <= |str|
      invariant Continue(str, p, n, acc, valid) == Continue(str, it, k, c, valid)
      decreases k
    {
      if it == |str| {
        return 0, Decoder(str, it, false);
      }
      var chr := str[it];
      it := it + 1;
      if !IsContinuation(chr) {
        return 0, Decoder(str, it, false);
      }
      c := Int32(c * 64 + chr as int % 64);
      k := k - 1;
    }
    return c, Decoder(str, it, valid);
  }

  /** A code point a decode loop received, with the byte offset where its encoding starts. */
  datatype Item = Item(offset: nat, cp: int)

  /**
   * What a decode loop `while (int chr = decode.next())` sees: every code
   * point up to the first 0 that `next()` returns (the end, a NUL byte, or
   * a malformed sequence), each with its starting offset.
   */
  function Items(d: Decoder): (items: seq<Item>)
    requires d.Wf()
    ensures forall k :: 0 <= k < |items| ==> items[k].cp != 0 && d.pos <= items[k].offset < |d.str|
    ensures forall k, l :: 0 <= k < l < |items| ==> items[k].offset < items[l].offset
    decreases |d.str| - d.pos
  {
    var (c, d') := Step(d);
    if c == 0 then [] else [Item(d.pos, c)] + Items(d')
  }

  /** Where such a loop stops: the offset of the cursor before the call of `next()` that returned 0. */
  function StopPos(d: Decoder): (p: nat)
    requires d.Wf()
    ensures d.pos <= p <= |d.str|
    ensures forall k :: 0 <= k < |Items(d)| ==> Items(d)[k].offset < p
    decreases |d.str| - d.pos
  {
    var (c, d') := Step(d);
    if c == 0 then d.pos else StopPos(d')
  }

  /** The code points of a run of items. */
  function CodePoints(items: seq<Item>): (cps: seq<int>)
    ensures |cps| == |items| && forall k :: 0 <= k < |items| ==> cps[k] == items[k].cp
  {
    if items == [] then [] else [items[0].cp] + CodePoints(items[1..])
  }

  /** One call of `next()` peels the first item off `Items`, or ends the loop where `StopPos` says. */
  lemma ItemsUnfold(d: Decoder)
    requires d.Wf()
    ensures Step(d).0 == 0 ==> Items(d) == [] && StopPos(d) == d.pos
    ensures Step(d).0 != 0 ==> Items(d) == [Item(d.pos, Step(d).0)] + Items(Step(d).1) && StopPos(d) == StopPos(Step(d).1)
  {
  }

  /**
   * A decode loop's bookkeeping: when the items read so far, `seen`, and
   * those still ahead of `d` make up the whole string's items, one more
   * call of `next()` either ends the loop or moves one item from ahead to
   * seen.
   */
  lemma ItemsAdvance(s: seq<byte>, seen: seq<Item>, d: Decoder)
    requires d.Wf() && d.str == s && Items(Init(s)) == seen + Items(d)
    ensures Step(d).0 == 0 ==> Items(Init(s)) == seen && StopPos(d) == d.pos
    ensures Step(d).0 != 0 ==>
              Items(Init(s)) == (seen + [Item(d.pos, Step(d).0)]) + Items(Step(d).1) &&
              StopPos(Step(d).1) == StopPos(d)
  {
    ItemsUnfold(d);
    if Step(d).0 == 0 {
      assert seen + [] == seen;
    } else {
      assert seen + ([Item(d.pos, Step(d).0)] + Items(Step(d).1)) == (seen + [Item(d.pos, Step(d).0)]) + Items(Step(d).1);
    }
  }

  /** The decoder after `k` calls of `next()`. */
  function StepN(d: Decoder, k: nat): (r: Decoder)
    requires d.Wf()
    ensures r.Wf() && r.str == d.str
    decreases k
  {
    if k == 0 then d else StepN(Step(d).1, k - 1)
  }

  /** The first of `k + 1` calls of `next()`, taken apart from the other `k`. */
  lemma StepNCons(d: Decoder, k: nat)
    requires d.Wf()
    ensures StepN(d, k + 1) == StepN(Step(d).1, k)
  {
  }

  /** `is_valid()` is sticky: once false, no number of further `next()` calls makes it true. */
  lemma {:induction false} InvalidStaysInvalid(d: Decoder, k: nat)
    requires d.Wf() && !d.valid
    ensures !StepN(d, k).valid
    decreases k
  {
    if k > 0 {
      InvalidStaysInvalid(Step(d).1, k - 1);
    }
  }

  // ---------------------------------------------------------------------
  // Encoding of section 3 of RFC 3629, and the round trip through next()
  // ---------------------------------------------------------------------

  /** A Unicode scalar value: 0..0x10FFFF without the surrogates. */
  predicate IsScalar(cp: int)
  {
    0 <= cp <= 0x10FFFF && !(0xD800 <= cp <= 0xDFFF)
  }

  /** The shortest UTF-8 form of a scalar value, as section 3 of RFC 3629 lays it out. */
  function Encode(cp: int): (s: seq<byte>)
    requires IsScalar(cp)
    ensures 1 <= |s| <= 4
  {
    if cp < 0x80 then
      [cp as byte]
    else if cp < 0x800 then
      [(0xC0 + cp / 64) as byte, (0x80 + cp % 64) as byte]
    else if cp < 0x10000 then
      [(0xE0 + cp / 4096) as byte, (0x80 + (cp / 64) % 64) as byte, (0x80 + cp % 64) as byte]
    else
      [(0xF0 + cp / 262144) as byte, (0x80 + (cp / 4096) % 64) as byte,
       (0x80 + (cp / 64) % 64) as byte, (0x80 + cp % 64) as byte]
  }

  /** The number of set bits that follow the top bit of a byte from 0x80 up: 0 for 10xxxxxx, 1 for 110xxxxx, and so on. */
  function LeadLength(c: int): (n: nat)
    ensures n <= 7
  {
    if c < 0xC0 then 0
    else if c < 0xE0 then 1
    else if c < 0xF0 then 2
    else if c < 0xF8 then 3
    else if c < 0xFC then 4
    else if c < 0xFE then 5
    else if c < 0xFF then 6
    else 7
  }

  /** The counting loop, started below the top bit of a byte from 0x80 up, counts the set bits that follow it. */
  lemma LeadCounts(c: int)
    requires 0x80 <= c < 0x100
    ensures LeadingOnes(c, 0x40) == LeadLength(c)
  {
    LeadBit40(c);
    if c >= 0xC0 {
      LeadBit20(c);
      if c >= 0xE0 {
        LeadBit10(c);
        if c >= 0xF0 {
          LeadBit08(c);
          if c >= 0xF8 {
            LeadBit04(c);
            if c >= 0xFC {
              LeadBit02(c);
              if c >= 0xFE {
                LeadBit01(c);
              }
            }
          }
        }
      }
    }
  }

  /** Bit 0x40 of a byte from 0x80 up is set exactly from 0xC0 up. */
  lemma LeadBit40(c: int)
    requires 0x80 <= c < 0x100
    ensures LeadingOnes(c, 0x40) == if c < 0xC0 then 0 else 1 + LeadingOnes(c, 0x20)
  {
    assert c / 0x40 == if c < 0xC0 then 2 else 3;
  }

  /** Bit 0x20 of a byte from 0xC0 up is set exactly from 0xE0 up. */
  lemma LeadBit20(c: int)
    requires 0xC0 <= c < 0x100
    ensures LeadingOnes(c, 0x20) == if c < 0xE0 then 0 else 1 + LeadingOnes(c, 0x10)
  {
    assert c / 0x20 == if c < 0xE0 then 6 else 7;
  }

  /** Bit 0x10 of a byte from 0xE0 up is set exactly from 0xF0 up. */
  lemma LeadBit10(c: int)
    requires 0xE0 <= c < 0x100
    ensures LeadingOnes(c, 0x10) == if c < 0xF0 then 0 else 1 + LeadingOnes(c, 0x08)
  {
    assert c / 0x10 == if c < 0xF0 then 14 else 15;
  }

  /** Bit 0x08 of a byte from 0xF0 up is set exactly from 0xF8 up. */
  lemma LeadBit08(c: int)
    requires 0xF0 <= c < 0x100
    ensures LeadingOnes(c, 0x08) == if c < 0xF8 then 0 else 1 + LeadingOnes(c, 0x04)
  {
    assert c / 0x08 == if c < 0xF8 then 30 else 31;
  }

  /** Bit 0x04 of a byte from 0xF8 up is set exactly from 0xFC up. */
  lemma LeadBit04(c: int)
    requires 0xF8 <= c < 0x100
    ensures LeadingOnes(c, 0x04) == if c < 0xFC then 0 else 1 + LeadingOnes(c, 0x02)
  {
    assert c / 0x04 == if c < 0xFC then 62 else 63;
  }

  /** Bit 0x02 of a byte from 0xFC up is set exactly from 0xFE up. */
  lemma LeadBit02(c: int)
    requires 0xFC <= c < 0x100
    ensures LeadingOnes(c, 0x02) == if c < 0xFE then 0 else 1 + LeadingOnes(c, 0x01)
  {
    assert c / 0x02 == if c < 0xFE then 126 else 127;
  }

  /** Bit 0x01 of a byte from 0xFE up is set exactly from 0xFF up. */
  lemma LeadBit01(c: int)
    requires 0xFE <= c < 0x100
    ensures LeadingOnes(c, 0x01) == if c < 0xFF then 0 else 1
  {
    assert c / 0x01 == if c < 0xFF then 254 else 255;
  }

  /** `cp` split into its six-bit groups, as the encoder writes them. */
  lemma SixBitGroups(cp: nat)
    ensures (cp / 64) * 64 + cp % 64 == cp
    ensures ((cp / 4096) * 64 + (cp / 64) % 64) * 64 + cp % 64 == cp
    ensures (((cp / 262144) * 64 + (cp / 4096) % 64) * 64 + (cp / 64) % 64) * 64 + cp % 64 == cp
  {
    var q := cp / 64;
    assert q / 64 == cp / 4096;
    assert (q / 64) / 64 == cp / 262144;
    assert (q / 64) * 64 + q % 64 == q;
    assert ((q / 64) / 64) * 64 + (q / 64) % 64 == q / 64;
  }

  lemma StepTwoBytes(s: seq<byte>, p: nat, x0: int, x1: int, valid: bool)
    requires 0 <= x0 < 32 && 0 <= x1 < 64 && p + 2 <= |s|
    requires s[p] as int == 0xC0 + x0 && s[p + 1] as int == 0x80 + x1
    ensures Step(Decoder(s, p, valid)) == (x0 * 64 + x1, Decoder(s, p + 2, valid))
  {
    LeadCounts(s[p] as int);
    assert LeadBits(s[p] as int, 1) == x0;
  }

  lemma StepThreeBytes(s: seq<byte>, p: nat, x0: int, x1: int, x2: int, valid: bool)
    requires 0 <= x0 < 16 && 0 <= x1 < 64 && 0 <= x2 < 64 && p + 3 <= |s|
    requires s[p] as int == 0xE0 + x0 && s[p + 1] as int == 0x80 + x1 && s[p + 2] as int == 0x80 + x2
    ensures Step(Decoder(s, p, valid)) == ((x0 * 64 + x1) * 64 + x2, Decoder(s, p + 3, valid))
  {
    LeadCounts(s[p] as int);
    assert LeadBits(s[p] as int, 2) == x0;
    assert Continue(s, p + 1, 2, x0, valid) == Continue(s, p + 2, 1, x0 * 64 + x1, valid);
  }

  /** A follower 0x80 + x shifted into a small accumulator: no wrap, and the result stays below `k * 64`. */
  lemma ShiftIn(acc: int, k: int, b: byte, x: int)
    requires 0 <= acc < k <= 0x200_0000 && 0 <= x < 64 && b as int == 0x80 + x
    ensures Shift6(acc, b) == acc * 64 + x && 0 <= acc * 64 + x < k * 64
  {
    assert b as int % 64 == x;
    assert acc * 64 <= (k - 1) * 64;
  }

  /** A four-byte lead 0xF0 + x0 asks for three followers and keeps x0. */
  lemma FourByteLead(x0: int)
    requires 0 <= x0 < 8
    ensures LeadLength(0xF0 + x0) == 3 && LeadBits(0xF0 + x0, 3) == x0
  {
    assert Pow2(3) == 8 by {
      assert Pow2(1) == 2 * Pow2(0) == 2;
      assert Pow2(2) == 2 * Pow2(1);
    }
  }

  lemma StepFourBytes(s: seq<byte>, p: nat, x0: int, x1: int, x2: int, x3: int, valid: bool)
    requires 0 <= x0 < 8 && 0 <= x1 < 64 && 0 <= x2 < 64 && 0 <= x3 < 64 && p + 4 <= |s|
    requires s[p] as int == 0xF0 + x0 && s[p + 1] as int == 0x80 + x1
    requires s[p + 2] as int == 0x80 + x2 && s[p + 3] as int == 0x80 + x3
    ensures Step(Decoder(s, p, valid)) == (((x0 * 64 + x1) * 64 + x2) * 64 + x3, Decoder(s, p + 4, valid))
  {
    var d := Decoder(s, p, valid);
    StepLead(d);
    FourByteLead(x0);
    var a1 := x0 * 64 + x1;
    var a2 := a1 * 64 + x2;
    var a3 := a2 * 64 + x3;
    ShiftIn(x0, 8, s[p + 1], x1);
    ShiftIn(a1, 0x200, s[p + 2], x2);
    ShiftIn(a2, 0x8000, s[p + 3], x3);
    ContinueOne(s, p + 1, 3, x0, valid);
    ContinueOne(s, p + 2, 2, a1, valid);
    ContinueOne(s, p + 3, 1, a2, valid);
    assert Continue(s, p + 4, 0, a3, valid) == (a3, Decoder(s, p + 4, valid));
  }

  /**
   * Round trip: wherever the encoding of a scalar value stands in a
   * string, `next()` returns that value, moves past exactly its bytes and
   * keeps the flag.
   */
  lemma StepEncoded(s: seq<byte>, p: nat, cp: int, valid: bool)
    requires IsScalar(cp) && p + |Encode(cp)| <= |s|
    requires forall i :: 0 <= i < |Encode(cp)| ==> s[p + i] == Encode(cp)[i]
    ensures Step(Decoder(s, p, valid)) == (cp, Decoder(s, p + |Encode(cp)|, valid))
  {
    var e := Encode(cp);
    assert s[p] == e[0] && s[p + 0] == s[p];
    SixBitGroups(cp);
    if cp < 0x80 {
    } else if cp < 0x800 {
      assert s[p + 1] == e[1];
      StepTwoBytes(s, p, cp / 64, cp % 64, valid);
    } else if cp < 0x10000 {
      assert s[p + 1] == e[1] && s[p + 2] == e[2];
      StepThreeBytes(s, p, cp / 4096, (cp / 64) % 64, cp % 64, valid);
    } else {
      assert s[p + 1] == e[1] && s[p + 2] == e[2] && s[p + 3] == e[3];
      StepFourBytes(s, p, cp / 262144, (cp / 4096) % 64, (cp / 64) % 64, cp % 64, valid);
    }
  }

  /** The encoding of a sequence of scalar values, one after the other. */
  function EncodeAll(cps: seq<int>): (s: seq<byte>)
    requires forall k :: 0 <= k < |cps| ==> IsScalar(cps[k])
  {
    if cps == [] then [] else Encode(cps[0]) + EncodeAll(cps[1..])
  }

  lemma ConcatAssoc<T>(a: seq<T>, b: seq<T>, c: seq<T>)
    ensures a + (b + c) == a + b + c
  {
  }

  /** The encoding of a non-empty sequence starts with the encoding of its first value. */
  lemma EncodeAllStarts(pre: seq<byte>, cps: seq<int>)
    requires cps != [] && forall k :: 0 <= k < |cps| ==> IsScalar(cps[k])
    ensures pre + EncodeAll(cps) == (pre + Encode(cps[0])) + EncodeAll(cps[1..])
    ensures |pre| + |Encode(cps[0])| <= |pre + EncodeAll(cps)|
    ensures forall i :: 0 <= i < |Encode(cps[0])| ==> (pre + EncodeAll(cps))[|pre| + i] == Encode(cps[0])[i]
  {
    var e := Encode(cps[0]);
    var rest := EncodeAll(cps[1..]);
    ConcatAssoc(pre, e, rest);
    forall i | 0 <= i < |e|
      ensures (pre + EncodeAll(cps))[|pre| + i] == e[i]
    {
      assert (pre + EncodeAll(cps))[|pre| + i] == (e + rest)[i];
    }
  }

  /**
   * Whole-string round trip: decoding the encoding of non-zero scalar
   * values gives them back.
   */
  lemma {:induction false} DecodeEncodeAll(pre: seq<byte>, cps: seq<int>)
    requires forall k :: 0 <= k < |cps| ==> IsScalar(cps[k]) && cps[k] != 0
    ensures CodePoints(Items(Decoder(pre + EncodeAll(cps), |pre|, true))) == cps
    decreases |cps|
  {
    var d := Decoder(pre + EncodeAll(cps), |pre|, true);
    ItemsUnfold(d);
    if cps == [] {
      assert d.IsEnd();
    } else {
      var e := Encode(cps[0]);
      EncodeAllStarts(pre, cps);
      StepEncoded(pre + EncodeAll(cps), |pre|, cps[0], true);
      DecodeEncodeAll(pre + e, cps[1..]);
      assert Step(d).1 == Decoder((pre + e) + EncodeAll(cps[1..]), |pre + e|, true);
      var items := Items(d);
      assert items[1..] == Items(Step(d).1);
      assert CodePoints(items) == [cps[0]] + cps[1..] == cps;
    }
  }

  /** Decoding the encoding of scalar values never clears `is_valid()`. */
  lemma {:induction false} DecodeEncodeAllValid(pre: seq<byte>, cps: seq<int>)
    requires forall k :: 0 <= k < |cps| ==> IsScalar(cps[k])
    ensures StepN(Decoder(pre + EncodeAll(cps), |pre|, true), |cps|).valid
    decreases |cps|
  {
    if cps != [] {
      var e := Encode(cps[0]);
      EncodeAllStarts(pre, cps);
      StepEncoded(pre + EncodeAll(cps), |pre|, cps[0], true);
      DecodeEncodeAllValid(pre + e, cps[1..]);
      var d := Decoder(pre + EncodeAll(cps), |pre|, true);
      assert Step(d).1 == Decoder((pre + e) + EncodeAll(cps[1..]), |pre + e|, true);
      StepNCons(d, |cps| - 1);
    }
  }

  /** A truncated sequence: only continuation bytes remain, fewer than the lead byte asks for. */
  lemma {:induction false} ContinueTruncated(str: seq<byte>, p: nat, n: nat, acc: int, valid: bool)
    requires p <= |str| && |str| - p < n
    requires forall k :: p <= k < |str| ==> IsContinuation(str[k])
    ensures Continue(str, p, n, acc, valid) == (0, Decoder(str, |str|, false))
    decreases n
  {
    if p < |str| {
      ContinueTruncated(str, p + 1, n - 1, Shift6(acc, str[p]), valid);
    }
  }

  /**
   * A following byte that is not 10xxxxxx: `next()` returns 0, clears the
   * flag and consumes the offending byte (and the good ones before it).
   */
  lemma {:induction false} ContinueBroken(str: seq<byte>, p: nat, n: nat, acc: int, valid: bool, bad: nat)
    requires p <= bad < |str| && bad - p < n
    requires forall k :: p <= k < bad ==> IsContinuation(str[k])
    requires !IsContinuation(str[bad])
    ensures Continue(str, p, n, acc, valid) == (0, Decoder(str, bad + 1, false))
    decreases n
  {
    if p < bad {
      ContinueBroken(str, p + 1, n - 1, Shift6(acc, str[p]), valid, bad);
    }
  }

  /** No overlong check: C0 80 decodes to U+0000 with `is_valid()` still true. */
  lemma OverlongNulAccepted()
    ensures Step(Init([0xC0, 0x80])) == (0, Decoder([0xC0, 0x80], 2, true))
  {
    LeadCounts(0xC0);
  }

  /** One more 10xxxxxx byte of the `while (n--)` loop: six bits into the 32-bit value. */
  lemma ContinueOne(str: seq<byte>, p: nat, n: nat, acc: int, valid: bool)
    requires p < |str| && 0 < n && IsContinuation(str[p])
    ensures Continue(str, p, n, acc, valid) == Continue(str, p + 1, n - 1, Shift6(acc, str[p]), valid)
  {
  }

  /** A lead byte from 0xC0 up hands its kept bits and `LeadLength` to the continuation loop. */
  lemma StepLead(d: Decoder)
    requires d.Wf() && d.pos < |d.str| && 0xC0 <= d.str[d.pos]
    ensures var c := d.str[d.pos] as int;
            Step(d) == Continue(d.str, d.pos + 1, LeadLength(c), LeadBits(c, LeadLength(c)), d.valid)
  {
    LeadCounts(d.str[d.pos] as int);
  }

  /**
   * 0xFF asks for seven continuation bytes and keeps none of its own bits,
   * so a set bit in the first of them is shifted 36 places: past the 32
   * bits of the `int`.  FF 81 80 80 80 80 80 80 gives 0 with the flag
   * still set, which a decode loop takes for the end of the string.
   */
  lemma LeadFFWantsSeven(s: seq<byte>)
    requires |s| == 8 && s[0] == 0xFF && s[1] == 0x81 && forall i :: 2 <= i < 8 ==> s[i] == 0x80
    ensures Step(Init(s)) == (0, Decoder(s, 8, true))
  {
    StepLead(Init(s));
    assert LeadLength(0xFF) == 7 && LeadBits(0xFF, 7) == 0;
    ContinueOne(s, 1, 7, 0, true);
    ContinueOne(s, 2, 6, 1, true);
    ContinueOne(s, 3, 5, 0x40, true);
    ContinueOne(s, 4, 4, 0x1000, true);
    ContinueOne(s, 5, 3, 0x4_0000, true);
    ContinueOne(s, 6, 2, 0x100_0000, true);
    ContinueOne(s, 7, 1, 0x4000_0000, true);
    assert Shift6(0x4000_0000, 0x80) == 0;
  }

  /**
   * 0xFE asks for six continuation bytes: FE 82 80 80 80 80 80 sets bit
   * 31, and `next()` returns a negative value with the flag still set.
   */
  lemma LeadFENegative(s: seq<byte>)
    requires |s| == 7 && s[0] == 0xFE && s[1] == 0x82 && forall i :: 2 <= i < 7 ==> s[i] == 0x80
    ensures Step(Init(s)) == (-0x8000_0000, Decoder(s, 7, true))
  {
    StepLead(Init(s));
    assert LeadLength(0xFE) == 6 && LeadBits(0xFE, 6) == 0;
    ContinueOne(s, 1, 6, 0, true);
    ContinueOne(s, 2, 5, 2, true);
    ContinueOne(s, 3, 4, 0x80, true);
    ContinueOne(s, 4, 3, 0x2000, true);
    ContinueOne(s, 5, 2, 0x8_0000, true);
    ContinueOne(s, 6, 1, 0x200_0000, true);
    assert Shift6(0x200_0000, 0x80) == -0x8000_0000;
  }

  /**
   * 0xFC and 0xFD keep at most one bit of their own, so both readers fit
   * the result in 31 bits: FD BF BF BF BF BF gives the largest `int`,
   * 0x7FFF_FFFF, in `next()` and in the iterator's `operator*` alike.
   */
  lemma LeadFDLargest(s: seq<byte>)
    requires |s| == 6 && s[0] == 0xFD && forall i :: 1 <= i < 6 ==> s[i] == 0xBF
    ensures Step(Init(s)) == (0x7FFF_FFFF, Decoder(s, 6, true))
    ensures IterValue(s, 0) == 0x7FFF_FFFF
  {
    StepLead(Init(s));
    FDBits();
    assert Shift6(1, 0xBF) == 0x7F;
    assert Shift6(0x7F, 0xBF) == 0x1FFF;
    assert Shift6(0x1FFF, 0xBF) == 0x7_FFFF;
    assert Shift6(0x7_FFFF, 0xBF) == 0x1FF_FFFF;
    ContinueOne(s, 1, 5, 1, true);
    ContinueOne(s, 2, 4, 0x7F, true);
    ContinueOne(s, 3, 3, 0x1FFF, true);
    ContinueOne(s, 4, 2, 0x7_FFFF, true);
    ContinueOne(s, 5, 1, 0x1FF_FFFF, true);
    assert Shift6(0x1FF_FFFF, 0xBF) == 0x7FFF_FFFF;
    IterFDFits(s);
  }

  /** The kept bits and the follower count of 0xFD in `next()`. */
  lemma FDBits()
    ensures LeadLength(0xFD) == 5 && LeadBits(0xFD, 5) == 1
  {
    assert Pow2(1) == 2 * Pow2(0) == 2;
  }

  /** The iterator half of `LeadFDLargest`. */
  lemma IterFDFits(s: seq<byte>)
    requires |s| == 6 && s[0] == 0xFD && forall i :: 1 <= i < 6 ==> s[i] == 0xBF
    ensures IterValue(s, 0) == 0x7FFF_FFFF
  {
    LeadCounts(0xFD);
    assert Pow2(2) == 4;
    assert IterLeadBits(0xFD, 6) == 1;
    assert IterFold(s, 5, 1, 0x1FF_FFFF) == 0x7FFF_FFFF by {
      assert Shift6(0x1FF_FFFF, 0xBF) == 0x7FFF_FFFF;
    }
    assert IterFold(s, 1, 5, 1) == IterFold(s, 5, 1, 0x1FF_FFFF) by {
      assert Shift6(1, 0xBF) == 0x7F;
      assert Shift6(0x7F, 0xBF) == 0x1FFF;
      assert Shift6(0x1FFF, 0xBF) == 0x7_FFFF;
      assert Shift6(0x7_FFFF, 0xBF) == 0x1FF_FFFF;
    }
  }

  /** With only six continuation bytes after 0xFF, `next()` runs off the end: 0, and the flag cleared. */
  lemma LeadFFTruncated(s: seq<byte>)
    requires |s| == 7 && s[0] == 0xFF && forall i :: 1 <= i < 7 ==> s[i] == 0x80
    ensures Step(Init(s)) == (0, Decoder(s, 7, false))
  {
    StepLead(Init(s));
    assert LeadLength(0xFF) == 7;
    ContinueTruncated(s, 1, 7, LeadBits(0xFF, 7), true);
  }

  // ---------------------------------------------------------------------
  // utf8_iteratorT
  // ---------------------------------------------------------------------

  /**
   * The byte an iterator reads at offset `i`: the string's bytes, then the
   * NUL terminator that std::string keeps after them.
   */
  function At(s: seq<byte>, i: nat): byte
  {
    if i < |s| then s[i] else 0
  }

  /** The `while (--n > 0)` loop of `operator++`: a malformed byte is stepped back over. */
  function IterSkip(s: seq<byte>, q: nat, k: nat): (r: nat)
    requires q <= |s|
    ensures q <= r <= |s|
    decreases k
  {
    if k == 0 then q
    else if !IsContinuation(At(s, q)) then q
    else IterSkip(s, q + 1, k - 1)
  }

  /** Where `utf8_iteratorT::operator++` leaves the iterator. */
  function IterNext(s: seq<byte>, p: nat): (r: nat)
    requires p < |s|
    ensures p < r <= |s|
  {
    var c := s[p] as int;
    if c < 0x80 then p + 1
    else IterSkip(s, p + 1, LeadingOnes(c, 0x40))
  }

  /** The `while (--n > 0)` loop of `operator*`: a malformed byte makes the value '^'. */
  function IterFold(s: seq<byte>, q: nat, k: nat, acc: int): int
    decreases k
  {
    if k == 0 then acc
    else if !IsContinuation(At(s, q)) then '^' as int
    else IterFold(s, q + 1, k - 1, Shift6(acc, At(s, q)))
  }

  /** `c & ((1 << (8-n)) - 1)`: the bits an `n`-byte lead keeps in `operator*`. */
  function IterLeadBits(c: int, n: nat): int
    requires n <= 8
  {
    c % Pow2(8 - n)
  }

  /** The value `utf8_iteratorT::operator*` returns. */
  function IterValue(s: seq<byte>, p: nat): int
    requires p < |s|
  {
    var c := s[p] as int;
    if c < 0x80 then c
    else
      var n := 1 + LeadingOnes(c, 0x40);
      IterFold(s, p + 1, n - 1, IterLeadBits(c, n))
  }

  /**
   * The iterator's count of the bytes a lead byte `c` starts: one, plus one
   * for each 1 bit below the top bit, from 0x40 down, until the first 0.
   */
  method IterLeadLength(c: int) returns (n: nat)
    ensures n == 1 + LeadingOnes(c, 0x40) && n <= 8
  {
    n := 1;
    var f := 0x40;  // 0x80 >> n
    while f > 0 && (c / f) % 2 == 1
      invariant f >= 0 && n - 1 + LeadingOnes(c, f) == LeadingOnes(c, 0x40)
      decreases f
    {
      n := n + 1;
      f := f / 2;
    }
  }

  /** A `utf8_iteratorT` over a string; `pos` is `m_internal` as an offset. */
  class Utf8Iterator {
    const str: seq<byte>
    var pos: nat

    constructor (s: seq<byte>, p: nat)
      requires p <= |s|
      ensures str == s && pos == p
    {
      str := s;
      pos := p;
    }

    /** operator++ */
    method Increment()
      requires pos < |str|
      modifies this
      ensures pos == IterNext(str, old(pos))
    {
      var c := str[pos] as int;
      ghost var p0 := pos;
      pos := pos + 1;
      if c >= 0x80 {
        var n := IterLeadLength(c);
        while n > 1
          invariant p0 < pos <= |str|
          invariant 1 <= n
          invariant IterNext(str, p0) == IterSkip(str, pos, n - 1)
          decreases n
        {
          var t := At(str, pos);
          pos := pos + 1;
          if !IsContinuation(t) {
            pos := pos - 1;
            return;
          }
          n := n - 1;
        }
      }
    }

    /** operator* : reads the code point at the iterator without moving it. */
    method Deref() returns (c: int)
      requires pos < |str|
      ensures c == IterValue(str, pos)
    {
      var it := pos;
      c := str[it] as int;
      it := it + 1;
      if c >= 0x80 {
        var n := IterLeadLength(c);
        c := IterContinue(str, it, n, IterLeadBits(c, n));
      }
    }
  }

  /**
   * The second loop of `operator*`: the `n - 1` bytes from `it` are added
   * to `c` six bits at a time, and the first one that is not 10xxxxxx
   * makes the value '^'.
   */
  method IterContinue(str: seq<byte>, it: nat, n: nat, c: int) returns (r: int)
    requires 1 <= n
    ensures r == IterFold(str, it, n - 1, c)
  {
    var i, k := it, n;
    r := c;
    while k > 1
      invariant 1 <= k
      invariant IterFold(str, it, n - 1, c) == IterFold(str, i, k - 1, r)
      decreases k
    {
      var t := At(str, i);
      i := i + 1;
      if !IsContinuation(t) {
        return '^' as int;
      }
      r := Int32(r * 64 + t as int % 64);
      k := k - 1;
    }
  }

  /** The old iterator reads a lone continuation byte as its low seven bits and moves one byte. */
  lemma IterLoneContinuation(s: seq<byte>, p: nat)
    requires p < |s| && 0x80 <= s[p] < 0xC0
    ensures IterValue(s, p) == s[p] as int % 128 && IterNext(s, p) == p + 1
  {
    LeadCounts(s[p] as int);
    assert Pow2(7) == 128;
  }

  /**
   * The two readers part ways on a broken sequence: `next()` consumes the
   * offending byte and reports an error, while the iterator yields '^'
   * and `operator++` stops in front of that byte.
   */
  lemma ReadersDisagreeOnBrokenSequence()
    ensures Step(Init([0xC3, 0x41])) == (0, Decoder([0xC3, 0x41], 2, false))
    ensures IterValue([0xC3, 0x41], 0) == '^' as int
    ensures IterNext([0xC3, 0x41], 0) == 1
  {
    LeadCounts(0xC3);
  }

  lemma IterTwoBytes(s: seq<byte>, p: nat, x0: int, x1: int)
    requires 0 <= x0 < 32 && 0 <= x1 < 64 && p + 2 <= |s|
    requires s[p] as int == 0xC0 + x0 && s[p + 1] as int == 0x80 + x1
    ensures IterValue(s, p) == x0 * 64 + x1 && IterNext(s, p) == p + 2
  {
    LeadCounts(s[p] as int);
    assert Pow2(6) == 64;
    assert (s[p] as int) / 64 == 3;
    assert At(s, p + 1) == s[p + 1];
  }

  lemma IterThreeBytes(s: seq<byte>, p: nat, x0: int, x1: int, x2: int)
    requires 0 <= x0 < 16 && 0 <= x1 < 64 && 0 <= x2 < 64 && p + 3 <= |s|
    requires s[p] as int == 0xE0 + x0 && s[p + 1] as int == 0x80 + x1 && s[p + 2] as int == 0x80 + x2
    ensures IterValue(s, p) == (x0 * 64 + x1) * 64 + x2 && IterNext(s, p) == p + 3
  {
    LeadCounts(s[p] as int);
    assert Pow2(5) == 32;
    assert (s[p] as int) / 32 == 7;
    assert At(s, p + 1) == s[p + 1] && At(s, p + 2) == s[p + 2];
    assert IterFold(s, p + 1, 2, x0) == IterFold(s, p + 2, 1, x0 * 64 + x1);
    assert IterSkip(s, p + 1, 2) == IterSkip(s, p + 2, 1);
  }

  lemma IterFourBytes(s: seq<byte>, p: nat, x0: int, x1: int, x2: int, x3: int)
    requires 0 <= x0 < 8 && 0 <= x1 < 64 && 0 <= x2 < 64 && 0 <= x3 < 64 && p + 4 <= |s|
    requires s[p] as int == 0xF0 + x0 && s[p + 1] as int == 0x80 + x1
    requires s[p + 2] as int == 0x80 + x2 && s[p + 3] as int == 0x80 + x3
    ensures IterValue(s, p) == ((x0 * 64 + x1) * 64 + x2) * 64 + x3 && IterNext(s, p) == p + 4
  {
    LeadCounts(s[p] as int);
    assert Pow2(4) == 16;
    assert (s[p] as int) / 16 == 15;
    assert At(s, p + 1) == s[p + 1] && At(s, p + 2) == s[p + 2] && At(s, p + 3) == s[p + 3];
    assert IterFold(s, p + 1, 3, x0) == IterFold(s, p + 2, 2, x0 * 64 + x1);
    assert IterFold(s, p + 2, 2, x0 * 64 + x1) == IterFold(s, p + 3, 1, (x0 * 64 + x1) * 64 + x2);
    assert IterSkip(s, p + 1, 3) == IterSkip(s, p + 2, 2);
    assert IterSkip(s, p + 2, 2) == IterSkip(s, p + 3, 1);
  }

  /** On well-formed input the old iterator agrees with `next()`. */
  lemma IterAgreesOnEncoded(pre: seq<byte>, cp: int, post: seq<byte>)
    requires IsScalar(cp)
    ensures var s := pre + Encode(cp) + post;
            IterValue(s, |pre|) == cp && IterNext(s, |pre|) == |pre| + |Encode(cp)|
  {
    var e := Encode(cp);
    var s := pre + e + post;
    var p := |pre|;
    forall i | 0 <= i < |e|
      ensures s[p + i] == e[i]
    {
    }
    SixBitGroups(cp);
    if cp < 0x80 {
    } else if cp < 0x800 {
      IterTwoBytes(s, p, cp / 64, cp % 64);
    } else if cp < 0x10000 {
      IterThreeBytes(s, p, cp / 4096, (cp / 64) % 64, cp % 64);
    } else {
      IterFourBytes(s, p, cp / 262144, (cp / 4096) % 64, (cp / 64) % 64, cp % 64);
    }
  }
}
