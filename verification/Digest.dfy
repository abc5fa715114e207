/** CRC-64 (src/digest.cpp): the table-driven loop against schoolbook division
    of bit strings by the CRC64 generator polynomial. */
module Digest {

  type Octets = seq<bv8>

  /** The generator without its leading term, lowest bit first being the
      highest power: the reflected form of 0x42F0E1EBA9EA3693. */
  const REFLECTED_POLY: bv64 := 0xC96C5795D7870F42
  const ALL_ONES: bv64 := 0xFFFF_FFFF_FFFF_FFFF

  // ----- the reference: long division of polynomials over GF(2) -------------

  type BitString = seq<bool>

  function Xor(a: BitString, b: BitString): (r: BitString)
    requires |a| == |b|
    ensures |r| == |a| && forall i :: 0 <= i < |r| ==> r[i] == (a[i] != b[i])
  {
    seq(|a|, i requires 0 <= i < |a| => a[i] != b[i])
  }

  /** Subtract m from the leading coefficients of s. */
  function XorPrefix(s: BitString, m: BitString): (r: BitString)
    requires |m| <= |s|
    ensures |r| == |s|
    ensures forall i :: 0 <= i < |s| ==> r[i] == (if i < |m| then s[i] != m[i] else s[i])
  {
    Xor(s[..|m|], m) + s[|m|..]
  }

  function Fill(n: nat, b: bool): (r: BitString)
    ensures |r| == n && forall i :: 0 <= i < n ==> r[i] == b
  {
    seq(n, _ => b)
  }

  /** One step of long division by the polynomial with leading coefficient one
      followed by the coefficients g: cancel the leading coefficient, drop it. */
  function Reduce(s: BitString, g: BitString): (r: BitString)
    requires |s| > |g|
    ensures |r| == |s| - 1
  {
    if s[0] then XorPrefix(s, [true] + g)[1..] else s[1..]
  }

  function Remainder(s: BitString, g: BitString): (r: BitString)
    ensures |s| >= |g| ==> |r| == |g|
    decreases |s|
  {
    if |s| <= |g| then s else Remainder(Reduce(s, g), g)
  }

  function Low(c: bv64): bool { c & 1 == 1 }

  function Half(c: bv64): bv64 { c >> 1 }

  /** Addition of polynomials: exclusive or. */
  function Plus(x: bv64, y: bv64): bv64 { x ^ y }

  /** The low n bits of c, lowest first. */
  function Bits(c: bv64, n: nat): (r: BitString)
    ensures |r| == n
    decreases n
  {
    if n == 0 then [] else [Low(c)] + Bits(Half(c), n - 1)
  }

  function MessageBits(m: Octets): BitString {
    if |m| == 0 then [] else MessageBits(m[..|m| - 1]) + Bits(m[|m| - 1] as bv64, 8)
  }

  // ----- the shift register --------------------------------------------------

  /** One step of the register with no message bit, as the table is built. */
  function BitStep(c: bv64): bv64 {
    if Low(c) then Plus(Half(c), REFLECTED_POLY) else Half(c)
  }

  function BitSteps(c: bv64, n: nat): bv64
    decreases n
  {
    if n == 0 then c else BitStep(BitSteps(c, n - 1))
  }

  /** One step of the register with one message bit. */
  function FeedBit(c: bv64, bit: bool, poly: bv64): bv64 {
    if Low(c) != bit then Plus(Half(c), poly) else Half(c)
  }

  function Feed(c: bv64, bits: BitString, poly: bv64): bv64
    decreases |bits|
  {
    if |bits| == 0 then c else Feed(FeedBit(c, bits[0], poly), bits[1..], poly)
  }

  lemma {:induction false} FeedConcat(c: bv64, a: BitString, b: BitString, poly: bv64)
    ensures Feed(c, a + b, poly) == Feed(Feed(c, a, poly), b, poly)
    decreases |a|
  {
    if |a| == 0 {
      assert a + b == b;
    } else {
      assert (a + b)[1..] == a[1..] + b;
      FeedConcat(FeedBit(c, a[0], poly), a[1..], b, poly);
    }
  }

  // ----- register and division agree ----------------------------------------

  function Shr(c: bv64, n: nat): bv64
    decreases n
  {
    if n == 0 then c else Shr(Half(c), n - 1)
  }

  lemma {:induction false} ShrAdd(c: bv64, m: nat, n: nat)
    ensures Shr(c, m + n) == Shr(Shr(c, m), n)
    decreases m
  {
    if m == 0 {
    } else {
      ShrAdd(c >> 1, m - 1, n);
    }
  }

  lemma ShiftTwice1(c: bv64)
    ensures c >> 1 >> 1 == c >> 2
  {
  }

  lemma ShiftTwice2(c: bv64)
    ensures c >> 2 >> 2 == c >> 4
  {
  }

  lemma ShiftTwice4(c: bv64)
    ensures c >> 4 >> 4 == c >> 8
  {
  }

  lemma ShiftTwice8(c: bv64)
    ensures c >> 8 >> 8 == c >> 16
  {
  }

  lemma ShiftTwice16(c: bv64)
    ensures c >> 16 >> 16 == c >> 32
  {
  }

  lemma ShiftTwice32(c: bv64)
    ensures c >> 32 >> 32 == 0
  {
  }

  /** Repeated single shifts are one shift. */
  ghost predicate ShrIs(c: bv64, n: nat, r: bv64) { Shr(c, n) == r }

  lemma ShrTwice(c: bv64, n: nat, d: bv64, e: bv64)
    requires ShrIs(c, n, d) && ShrIs(d, n, e)
    ensures ShrIs(c, n + n, e)
  {
    ShrAdd(c, n, n);
  }

  lemma Shr1(c: bv64)
    ensures ShrIs(c, 1, c >> 1)
  {
    assert Shr(c, 1) == Shr(c >> 1, 0);
  }

  lemma Shr2(c: bv64)
    ensures ShrIs(c, 2, c >> 2)
  {
    hide ShrIs;
    var d := c >> 1;
    var e := d >> 1;
    Shr1(c);
    Shr1(d);
    ShrTwice(c, 1, d, e);
    ShiftTwice1(c);
  }

  lemma Shr4(c: bv64)
    ensures ShrIs(c, 4, c >> 4)
  {
    hide ShrIs;
    var d := c >> 2;
    var e := d >> 2;
    Shr2(c);
    Shr2(d);
    ShrTwice(c, 2, d, e);
    ShiftTwice2(c);
  }

  lemma Shr8(c: bv64)
    ensures ShrIs(c, 8, c >> 8)
  {
    hide ShrIs;
    var d := c >> 4;
    var e := d >> 4;
    Shr4(c);
    Shr4(d);
    ShrTwice(c, 4, d, e);
    ShiftTwice4(c);
  }

  lemma Shr16(c: bv64)
    ensures ShrIs(c, 16, c >> 16)
  {
    hide ShrIs;
    var d := c >> 8;
    var e := d >> 8;
    Shr8(c);
    Shr8(d);
    ShrTwice(c, 8, d, e);
    ShiftTwice8(c);
  }

  lemma Shr32(c: bv64)
    ensures ShrIs(c, 32, c >> 32)
  {
    hide ShrIs;
    var d := c >> 16;
    var e := d >> 16;
    Shr16(c);
    Shr16(d);
    ShrTwice(c, 16, d, e);
    ShiftTwice16(c);
  }

  lemma Shr64(c: bv64)
    ensures ShrIs(c, 64, 0)
  {
    hide ShrIs;
    var d := c >> 32;
    var e := d >> 32;
    Shr32(c);
    Shr32(d);
    ShrTwice(c, 32, d, e);
    ShiftTwice32(c);
  }

  lemma {:induction false} BitsSnoc(c: bv64, n: nat)
    ensures Bits(c, n + 1) == Bits(c, n) + [Shr(c, n) & 1 == 1]
    decreases n
  {
    if n == 0 {
    } else {
      BitsSnoc(c >> 1, n - 1);
    }
  }

  lemma BitsShifted(c: bv64, w: nat)
    requires w == 64
    ensures Bits(c >> 1, w) == Bits(c, w)[1..] + [false]
  {
    BitsSnoc(c >> 1, w - 1);
    Shr64(c);
  }

  lemma PlusOneBit(x: bv64, y: bv64)
    ensures Half(Plus(x, y)) == Plus(Half(x), Half(y))
    ensures Low(Plus(x, y)) == (Low(x) != Low(y))
  {
  }

  lemma {:induction false} BitsPlusAt(x: bv64, y: bv64, n: nat, i: nat)
    requires i < n
    ensures Bits(Plus(x, y), n)[i] == (Bits(x, n)[i] != Bits(y, n)[i])
    decreases n
  {
    hide Low, Half, Plus;
    PlusOneBit(x, y);
    if i == 0 {
    } else {
      BitsPlusAt(Half(x), Half(y), n - 1, i - 1);
    }
  }

  lemma BitsPlus(x: bv64, y: bv64, n: nat)
    ensures Bits(Plus(x, y), n) == Xor(Bits(x, n), Bits(y, n))
  {
    hide Low, Half, Plus;
    forall i | 0 <= i < n ensures Bits(Plus(x, y), n)[i] == (Bits(x, n)[i] != Bits(y, n)[i]) {
      BitsPlusAt(x, y, n, i);
    }
  }

  /** One step of long division, with the register held as a string that is
      still to be subtracted from the leading coefficients. */
  lemma DivisionStep(s: BitString, mask: BitString, g: BitString, shifted: BitString)
    requires |s| > |mask| == |g| > 0
    requires shifted == mask[1..] + [false]
    ensures Reduce(XorPrefix(s, mask), g)
            == XorPrefix(s[1..], if mask[0] != s[0] then Xor(shifted, g) else shifted)
  {
    hide Xor, XorPrefix;
    var d := XorPrefix(s, mask);
    if mask[0] != s[0] {
      var divisor := [true] + g;
      var left, right := XorPrefix(d, divisor)[1..], XorPrefix(s[1..], Xor(shifted, g));
      forall i | 0 <= i < |left| ensures left[i] == right[i] {
        assert left[i] == XorPrefix(d, divisor)[i + 1];
        assert i < |g| ==> divisor[i + 1] == g[i];
      }
      assert left == right;
    } else {
      var left, right := d[1..], XorPrefix(s[1..], shifted);
      forall i | 0 <= i < |left| ensures left[i] == right[i] {
        assert left[i] == d[i + 1];
      }
      assert left == right;
    }
  }

  /** Feeding one bit is one step of the division. */
  lemma FeedBitDivides(c: bv64, s: BitString, poly: bv64, w: nat)
    requires w == 64 && |s| > w
    ensures Reduce(XorPrefix(s, Bits(c, w)), Bits(poly, w))
            == XorPrefix(s[1..], Bits(FeedBit(c, s[0], poly), w))
  {
    var mask := Bits(c, w);
    BitsShifted(c, w);
    BitsPlus(c >> 1, poly, w);
    assert mask[0] == (c & 1 == 1);
    DivisionStep(s, mask, Bits(poly, w), Bits(c >> 1, w));
  }

  /** Feeding a string to the register is dividing it, padded with 64 zeros,
      after subtracting the register from its leading coefficients. */
  lemma {:induction false} FeedDivides(c: bv64, s: BitString, poly: bv64, w: nat)
    requires w == 64
    ensures Bits(Feed(c, s, poly), w)
            == Remainder(XorPrefix(s + Fill(w, false), Bits(c, w)), Bits(poly, w))
    decreases |s|
  {
    var zeros := Fill(w, false);
    if |s| == 0 {
      assert XorPrefix(s + zeros, Bits(c, w)) == Bits(c, w);
    } else {
      FeedDivides(FeedBit(c, s[0], poly), s[1..], poly, w);
      FeedBitDivides(c, s + zeros, poly, w);
      assert (s + zeros)[1..] == s[1..] + zeros;
    }
  }

  // ----- eight register steps at once: the table -----------------------------

  lemma {:induction false} StepFirst(c: bv64, n: nat)
    requires n > 0
    ensures BitSteps(c, n) == BitSteps(BitStep(c), n - 1)
    decreases n
  {
    hide BitStep;
    if n > 1 {
      StepFirst(c, n - 1);
    }
  }

  lemma PlusAssoc(a: bv64, b: bv64, c: bv64)
    ensures Plus(Plus(a, b), c) == Plus(a, Plus(b, c))
  {
  }

  lemma PlusSelf(a: bv64, b: bv64)
    ensures Plus(a, b) == Plus(b, a)
    ensures Plus(a, a) == 0
    ensures Plus(a, 0) == a
  {
  }

  lemma PlusLaws(a: bv64, b: bv64, p: bv64)
    ensures Plus(Plus(a, p), b) == Plus(Plus(a, b), p)
    ensures Plus(a, Plus(b, p)) == Plus(Plus(a, b), p)
    ensures Plus(Plus(a, p), Plus(b, p)) == Plus(a, b)
  {
    hide Plus;
    PlusAssoc(a, b, p);
    PlusAssoc(a, p, b);
    PlusSelf(b, p);
    PlusAssoc(a, p, Plus(b, p));
    PlusSelf(b, p);
    PlusAssoc(p, p, b);
    PlusSelf(p, Plus(b, p));
    PlusAssoc(b, p, p);
    PlusSelf(p, b);
    PlusSelf(b, b);
  }

  lemma StepLinear(x: bv64, y: bv64)
    ensures BitStep(Plus(x, y)) == Plus(BitStep(x), BitStep(y))
  {
    hide Low, Half, Plus;
    PlusOneBit(x, y);
    PlusLaws(Half(x), Half(y), REFLECTED_POLY);
  }

  lemma {:induction false} StepsLinear(x: bv64, y: bv64, n: nat)
    ensures BitSteps(Plus(x, y), n) == Plus(BitSteps(x, n), BitSteps(y, n))
    decreases n
  {
    hide Plus, BitStep;
    if n == 0 {
    } else {
      StepsLinear(x, y, n - 1);
      StepLinear(BitSteps(x, n - 1), BitSteps(y, n - 1));
    }
  }

  lemma LowByteZero(h: bv64)
    requires h & 0xFF == 0
    ensures !Low(h) && !Low(h >> 1) && !Low(h >> 2) && !Low(h >> 3)
    ensures !Low(h >> 4) && !Low(h >> 5) && !Low(h >> 6) && !Low(h >> 7)
  {
  }

  lemma HalfChain(h: bv64)
    ensures Half(h) == h >> 1 && Half(h >> 1) == h >> 2 && Half(h >> 2) == h >> 3
    ensures Half(h >> 3) == h >> 4 && Half(h >> 4) == h >> 5 && Half(h >> 5) == h >> 6
    ensures Half(h >> 6) == h >> 7 && Half(h >> 7) == h >> 8
  {
  }

  /** Low bits that are zero never reach the feedback. */
  lemma StepsOfHighPart(h: bv64)
    requires h & 0xFF == 0
    ensures BitSteps(h, 8) == h >> 8
  {
    hide Low, Half, Plus;
    LowByteZero(h);
    HalfChain(h);
    assert BitSteps(h, 1) == h >> 1;
    assert BitSteps(h, 2) == h >> 2;
    assert BitSteps(h, 3) == h >> 3;
    assert BitSteps(h, 4) == h >> 4;
    assert BitSteps(h, 5) == h >> 5;
    assert BitSteps(h, 6) == h >> 6;
    assert BitSteps(h, 7) == h >> 7;
  }

  lemma SplitLowByte(x: bv64)
    ensures x == Plus(x & 0xFF, x & 0xFFFF_FFFF_FFFF_FF00)
    ensures (x & 0xFFFF_FFFF_FFFF_FF00) & 0xFF == 0
    ensures (x & 0xFFFF_FFFF_FFFF_FF00) >> 8 == x >> 8
  {
  }

  /** Eight steps are one table lookup on the low byte plus a byte shift. */
  lemma TableStep(x: bv64)
    ensures BitSteps(x, 8) == Plus(BitSteps(x & 0xFF, 8), x >> 8)
  {
    hide Low, Half, Plus, BitStep, BitSteps;
    var low, high := x & 0xFF, x & 0xFFFF_FFFF_FFFF_FF00;
    SplitLowByte(x);
    StepsLinear(low, high, 8);
    StepsOfHighPart(high);
  }

  lemma StepWithBit(c: bv64, b: bv64)
    ensures BitStep(Plus(c, b)) == Plus(FeedBit(c, Low(b), REFLECTED_POLY), Half(b))
  {
    hide Low, Half, Plus;
    PlusOneBit(c, b);
    PlusLaws(Half(c), Half(b), REFLECTED_POLY);
  }

  /** Feeding the n bits of b one at a time is adding b and stepping n times. */
  lemma {:induction false} FeedIsAddThenStep(c: bv64, b: bv64, n: nat)
    requires Shr(b, n) == 0
    ensures Feed(c, Bits(b, n), REFLECTED_POLY) == BitSteps(Plus(c, b), n)
    decreases n
  {
    hide Low, Half, Plus, BitStep, FeedBit;
    if n == 0 {
      PlusSelf(c, c);
    } else {
      var bits := Bits(b, n);
      assert bits[0] == Low(b) && bits[1..] == Bits(Half(b), n - 1);
      FeedIsAddThenStep(FeedBit(c, Low(b), REFLECTED_POLY), Half(b), n - 1);
      StepWithBit(c, b);
      StepFirst(Plus(c, b), n);
    }
  }

  lemma ByteHasEightBits(b: bv8)
    ensures Shr(b as bv64, 8) == 0
  {
    hide Shr;
    Shr8(b as bv64);
    assert (b as bv64) >> 8 == 0;
  }

  // ----- the program ---------------------------------------------------------

  /** The register after every message bit was fed, lowest bit first. */
  function Register(m: Octets): bv64 {
    Feed(ALL_ONES, MessageBits(m), REFLECTED_POLY)
  }

  function Crc(m: Octets): bv64 {
    Plus(Register(m), ALL_ONES)
  }

  lemma RegisterEmpty()
    ensures Register([]) == ALL_ONES
  {
  }

  /** Feeding one more byte is eight register steps. */
  lemma RegisterSnoc(m: Octets, b: bv8)
    ensures Register(m + [b]) == BitSteps(Plus(Register(m), b as bv64), 8)
  {
    hide Low, Half, Plus, BitStep, BitSteps, FeedBit, Shr;
    var n := 8;
    assert (m + [b])[..|m|] == m;
    FeedConcat(ALL_ONES, MessageBits(m), Bits(b as bv64, n), REFLECTED_POLY);
    ByteHasEightBits(b);
    FeedIsAddThenStep(Register(m), b as bv64, n);
  }

  /** The table entry for a byte. */
  function Entry(b: bv8): bv64 { BitSteps(b as bv64, 8) }

  predicate IsTable(entries: seq<bv64>) {
    |entries| == 256 && forall i :: 0 <= i < 256 ==> entries[i] == Entry(i as bv8)
  }

  /** The table constructor. */
  method BuildTable() returns (entries: array<bv64>)
    ensures IsTable(entries[..])
    ensures fresh(entries)
  {
    hide Low, Half, Plus, BitSteps;
    entries := new bv64[256](_ => 0);
    for i := 0 to 256
      invariant forall k :: 0 <= k < i ==> entries[k] == Entry(k as bv8)
    {
      var crc := EightSteps(i as bv8);
      entries[i] := crc;
    }
  }

  /** The inner loop of the table constructor. */
  method EightSteps(start: bv8) returns (crc: bv64)
    ensures crc == Entry(start)
  {
    crc := start as bv64;
    var bit := 0;
    while bit < 8
      invariant 0 <= bit <= 8
      invariant crc == BitSteps(start as bv64, bit)
    {
      crc := if crc & 1 != 0 then (crc >> 1) ^ REFLECTED_POLY else crc >> 1;
      bit := bit + 1;
    }
  }

  function LowByte(x: bv64): (r: bv8)
    ensures r as bv64 == x & 0xFF
  {
    (x & 0xFF) as bv8
  }

  lemma TableAt(entries: seq<bv64>, b: bv8)
    requires IsTable(entries)
    ensures 0 <= b as int < |entries| && entries[b as int] == Entry(b)
  {
    assert (b as int) as bv8 == b;
  }

  /** The table-driven loop computes the bit-at-a-time CRC. */
  method Crc64(bytes: Octets, entries: array<bv64>) returns (crc: bv64)
    requires IsTable(entries[..])
    ensures crc == Crc(bytes)
  {
    hide Plus, BitSteps, LowByte, Entry, IsTable, Register;
    crc := ALL_ONES;
    RegisterEmpty();
    assert bytes[..0] == [];
    for i := 0 to |bytes|
      invariant crc == Register(bytes[..i])
    {
      var index := LowByte(Plus(crc, bytes[i] as bv64));
      TableAt(entries[..], index);
      TableLookupStep(crc, bytes[i], index);
      RegisterSnoc(bytes[..i], bytes[i]);
      assert bytes[..i + 1] == bytes[..i] + [bytes[i]];
      crc := Plus(entries[index as int], crc >> 8);
    }
    assert bytes[..|bytes|] == bytes;
    crc := Plus(crc, ALL_ONES);
  }

  /** The loop body: one table entry combined with the shifted register. */
  lemma TableLookupStep(crc: bv64, b: bv8, index: bv8)
    requires index == LowByte(Plus(crc, b as bv64))
    ensures Plus(Entry(index), crc >> 8) == BitSteps(Plus(crc, b as bv64), 8)
  {
    hide Plus, BitSteps, LowByte;
    ShiftIgnoresByte(crc, b);
    TableStep(Plus(crc, b as bv64));
  }

  lemma ShiftIgnoresByte(crc: bv64, b: bv8)
    ensures Plus(crc, b as bv64) >> 8 == crc >> 8
  {
  }

  /** For every byte string, the table-driven CRC, read as coefficients, is the
      remainder of the message polynomial: message times the 64th power, first
      64 coefficients complemented, divided by the generator, complemented. */
  lemma CrcIsPolynomialRemainder(m: Octets, w: nat)
    requires w == 64
    ensures Bits(Crc(m), w)
            == Xor(Remainder(XorPrefix(MessageBits(m) + Fill(w, false), Bits(ALL_ONES, w)),
                             Bits(REFLECTED_POLY, w)),
                   Bits(ALL_ONES, w))
  {
    hide Low, Half, Plus, BitStep, BitSteps, FeedBit, Feed, Bits;
    FeedDivides(ALL_ONES, MessageBits(m), REFLECTED_POLY, w);
    BitsPlus(Register(m), ALL_ONES, w);
  }
}
