/**
 * The bitwise CRC-16 of app/tcp/crc.py: register preset to 0xFFFF, polynomial 0x1021,
 * most significant bit of each byte first.
 */
module Crc {
  import opened Bits
  import opened Constants
  import opened Gf2
  import opened Wrappers

  // ---------- Bits, numbers and polynomials ----------

  /** `(b >> (7 - i)) & 1` */
  predicate BitAt(b: byte, i: nat)
    requires i < 8
  {
    b / Pow2(7 - i) % 2 == 1
  }

  /** The eight bits of a byte in the order the loop visits them. */
  function ByteBits(b: byte): (bits: seq<bool>)
    ensures |bits| == 8
  {
    seq(8, i requires 0 <= i < 8 => BitAt(b, i))
  }

  function BitString(data: seq<byte>): (bits: seq<bool>)
    ensures |bits| == 8 * |data|
  {
    if data == [] then [] else BitString(data[..|data| - 1]) + ByteBits(data[|data| - 1])
  }

  /** The polynomial whose coefficients are the binary digits of n. */
  function PolyOf(n: nat): Poly {
    if n == 0 then {} else Unit(n % 2) + Shift(PolyOf(n / 2), 1)
  }

  /** m(x): the bits of a message as coefficients, highest power first. */
  function MessagePoly(m: seq<bool>): Poly {
    set i: nat | i < |m| && m[i] :: |m| - 1 - i
  }

  /** init(x) * x^n + m(x) * x^16, for a message of n bits and a register preset to init. */
  function Dividend(init: nat, m: seq<bool>): Poly {
    Add(Shift(PolyOf(init), |m|), Shift(MessagePoly(m), 16))
  }

  // ---------- The register ----------

  /** One turn of the inner loop. */
  function StepBit(crc: nat, bit: bool): nat {
    var c15 := crc / 0x8000 % 2 == 1;
    var shifted := crc * 2 % 0x10000;
    if c15 != bit then Xor(shifted, 0x1021) else shifted
  }

  function FeedBits(crc: nat, bits: seq<bool>): nat {
    if bits == [] then crc else StepBit(FeedBits(crc, bits[..|bits| - 1]), bits[|bits| - 1])
  }

  function Crc16(data: seq<byte>): nat {
    FeedBits(0xFFFF, BitString(data))
  }

  /** The register of no bytes at all. */
  lemma NothingFed()
    ensures Crc16([]) == 65535
  {
  }

  lemma FeedAppend(crc: nat, bits: seq<bool>, bit: bool)
    ensures FeedBits(crc, bits + [bit]) == StepBit(FeedBits(crc, bits), bit)
  {
    assert (bits + [bit])[..|bits|] == bits;
  }

  method Crc16CcittFalse(data: seq<byte>, length: int) returns (crc: nat)
    ensures crc == Crc16(data) < 0x10000
    ensures IsRemainder(Dividend(0xFFFF, BitString(data)), PolyOf(crc))
  {
    crc := 0xFFFF;
    for n := 0 to |data|
      invariant crc == Crc16(data[..n])
    {
      crc := FeedByte(crc, data[n], 0xFFFF, BitString(data[..n]));
      assert data[..n + 1][..n] == data[..n];
    }
    assert data[..|data|] == data;
    CrcIsRemainder(0xFFFF, BitString(data));
  }

  /** The inner loop, eight turns for one byte; `before` is what the register has been fed already. */
  method FeedByte(start: nat, b: byte, ghost init: nat, ghost before: seq<bool>) returns (crc: nat)
    requires start == FeedBits(init, before)
    ensures crc == FeedBits(init, before + ByteBits(b))
  {
    crc := start;
    ghost var bits := ByteBits(b);
    assert before + bits[..0] == before;
    for i := 0 to 8
      invariant crc == FeedBits(init, before + bits[..i])
    {
      ghost var entry := crc;
      var bit := BitAt(b, i);
      var c15 := crc / 0x8000 % 2 == 1;
      crc := crc * 2 % 0x10000;
      if c15 != bit {
        crc := Xor(crc, 0x1021);
      }
      assert crc == StepBit(entry, bit);
      FeedAppend(init, before + bits[..i], bit);
      assert before + bits[..i + 1] == before + bits[..i] + [bit];
    }
    assert bits[..8] == bits;
  }

  /** `_calc_crc(src, 0, len(src) - length)`: reading past the end raises. */
  method CalcCrc(buf: seq<byte>, crcLen: int) returns (r: Outcome<nat>)
    ensures r == if crcLen > |buf| then Raises else Value(Crc16(if crcLen < 0 then [] else buf[..crcLen]))
  {
    var crc := 0xFFFF;
    var index := 0;
    while index < crcLen
      invariant 0 <= index <= |buf|
      invariant crcLen >= 0 ==> index <= crcLen
      invariant crc == Crc16(buf[..index])
      invariant crcLen < 0 ==> index == 0
    {
      if index >= |buf| {
        return Raises;
      }
      crc := FeedByte(crc, buf[index], 0xFFFF, BitString(buf[..index]));
      assert buf[..index + 1][..index] == buf[..index];
      index := index + 1;
    }
    r := Value(crc);
  }

  function HighByte(v: nat): byte { v / 256 % 256 }

  function LowByte(v: nat): byte { v % 256 }

  /** What a check of a trailer of this length leaves; a trailer longer than the buffer leaves nothing. */
  function WithoutLast(src: seq<byte>, length: nat): seq<byte> {
    if length > |src| then [] else src[..|src| - length]
  }

  /** The trailing two bytes are compared left to right, the second only if the first agrees. */
  method IsPassCrc(src: seq<byte>, length: int) returns (r: Outcome<bool>)
    ensures length == 2 && |src| >= 2 ==> r == Value(Crc16(src) == 0)
    ensures length >= 0 && |src| >= 2 ==>
              var c := Crc16(WithoutLast(src, length));
              r == Value(src[|src| - 2..] == [HighByte(c), LowByte(c)])
    ensures length >= 0 && |src| == 1 ==>
              r == if src[0] == HighByte(Crc16(WithoutLast(src, length))) then Raises else Value(false)
    ensures length < 0 || src == [] ==> r == Raises
  {
    var computed := CalcCrc(src, |src| - length);
    if computed.Raises? || src == [] {
      return Raises;
    }
    var actual := if |src| >= 2 then src[|src| - 2..] else src;
    if HighByte(computed.value) != actual[0] {
      r := Value(false);
    } else if |actual| < 2 {
      r := Raises;
    } else {
      r := Value(LowByte(computed.value) == actual[1]);
    }
    if length == 2 && |src| >= 2 {
      ghost var cut := |src| - 2;
      assert src == src[..cut] + [src[cut], src[cut + 1]];
      CrcOfWhole(0xFFFF, src[..cut], src[cut], src[cut + 1]);
    }
  }

  // ---------- The register holds the remainder ----------

  function Unit(c: nat): Poly {
    if c == 1 then {0} else {}
  }

  lemma PolyOfJoin(n: nat, c: nat, m: nat)
    requires c < 2 && n == c + 2 * m
    ensures PolyOf(n) == Unit(c) + Shift(PolyOf(m), 1)
  {
    assert n % 2 == c && n / 2 == m;
    assert Shift({}, 1) == {};
  }

  lemma PolyOfSplit(n: nat)
    ensures PolyOf(n) == Unit(n % 2) + Shift(PolyOf(n / 2), 1)
    ensures 0 !in Shift(PolyOf(n / 2), 1)
  {
    PolyOfJoin(n, n % 2, n / 2);
    InShift(PolyOf(n / 2), 1, 0);
  }

  lemma {:induction false} PolyOfXor(a: nat, b: nat)
    ensures PolyOf(Xor(a, b)) == Add(PolyOf(a), PolyOf(b))
  {
    hide PolyOf, Shift;
    PolyOfOne();
    if a != 0 || b != 0 {
      PolyOfXor(a / 2, b / 2);
      PolyOfSplit(a);
      PolyOfSplit(b);
      PolyOfJoin(Xor(a, b), (a % 2 + b % 2) % 2, Xor(a / 2, b / 2));
      ShiftAdd(PolyOf(a / 2), PolyOf(b / 2), 1);
      AddConstantTerm(Unit(a % 2), Unit(b % 2), Shift(PolyOf(a / 2), 1), Shift(PolyOf(b / 2), 1));
    }
  }

  lemma {:induction false} PolyOfInjective(a: nat, b: nat)
    requires PolyOf(a) == PolyOf(b)
    ensures a == b
    decreases a + b
  {
    if a != 0 || b != 0 {
      PolyOfSplit(a);
      PolyOfSplit(b);
      assert a % 2 == 1 <==> 0 in PolyOf(a);
      assert b % 2 == 1 <==> 0 in PolyOf(b);
      assert Shift(PolyOf(a / 2), 1) == PolyOf(a) - {0};
      assert Shift(PolyOf(b / 2), 1) == PolyOf(b) - {0};
      ShiftInjective(PolyOf(a / 2), PolyOf(b / 2), 1);
      PolyOfInjective(a / 2, b / 2);
    }
  }

  /** Exponent k is present exactly when the k-th binary digit is 1. */
  lemma {:induction false} PolyOfDigit(n: nat, k: nat)
    ensures k in PolyOf(n) <==> n / Pow2(k) % 2 == 1
    decreases k
  {
    PolyOfSplit(n);
    InShift(PolyOf(n / 2), 1, k);
    if k > 0 {
      PolyOfDigit(n / 2, k - 1);
      HalveThenDivide(n, Pow2(k - 1));
    }
  }

  lemma {:induction false} PolyOfBounded(n: nat, k: nat)
    requires n < Pow2(k)
    ensures forall e | e in PolyOf(n) :: e < k
  {
    if n > 0 {
      PolyOfBounded(n / 2, k - 1);
    }
  }

  lemma PolyOfOne()
    ensures PolyOf(0) == {} && PolyOf(1) == {0}
  {
    PolyOfJoin(1, 1, 0);
    assert Shift({}, 1) == {};
  }

  lemma {:induction false} AddTopBit(low: nat, k: nat)
    requires low < Pow2(k)
    ensures PolyOf(low + Pow2(k)) == PolyOf(low) + {k}
    decreases k
  {
    hide PolyOf, Shift;
    if k == 0 {
      PolyOfOne();
    } else {
      AddTopBit(low / 2, k - 1);
      PrependDigit(low % 2, low / 2, Pow2(k - 1), k);
    }
  }

  lemma PrependDigit(c: nat, low: nat, top: nat, k: nat)
    requires k > 0 && c < 2 && PolyOf(low + top) == PolyOf(low) + {k - 1}
    ensures PolyOf(c + 2 * low + 2 * top) == PolyOf(c + 2 * low) + {k}
  {
    hide PolyOf, Shift;
    PolyOfJoin(c + 2 * low + 2 * top, c, low + top);
    PolyOfJoin(c + 2 * low, c, low);
    ShiftInsert(PolyOf(low), k - 1, 1);
  }

  lemma RegisterSize()
    ensures Pow2(16) == 0x10000
  {
    assert Pow2(8) == 256;
    Pow2Add(8, 8);
  }

  lemma PolyOfBounded16(n: nat)
    requires n < 0x10000
    ensures Small(PolyOf(n))
  {
    RegisterSize();
    PolyOfBounded(n, 16);
  }

  /** Shifting the register left moves bit 15 to exponent 16, which is cut off. */
  lemma ShiftRegister(crc: nat, low: nat, c15: bool)
    requires low < 0x10000 && 2 * crc == low + if c15 then 0x10000 else 0
    ensures Shift(PolyOf(crc), 1) == PolyOf(low) + if c15 then {16} else {}
    ensures 16 !in PolyOf(low)
  {
    hide PolyOf, Pow2, Shift;
    PolyOfBounded16(low);
    PolyOfJoin(2 * crc, 0, crc);
    RegisterSize();
    if c15 {
      AddTopBit(low, 16);
    }
  }

  lemma LowGenerator(g: nat)
    requires g == 0x1021
    ensures PolyOf(g) == {12, 5, 0}
  {
    Pow2Add(5, 7);
    assert Pow2(5) == 32 && Pow2(7) == 128;
    AddTopBit(0, 0);
    AddTopBit(1, 5);
    AddTopBit(33, 12);
  }

  lemma StepStays(crc: nat, bit: bool)
    requires crc < 0x10000
    ensures StepBit(crc, bit) < 0x10000
  {
    RegisterSize();
    XorBounded(crc * 2 % 0x10000, 0x1021, 16);
  }

  lemma {:induction false} XorBounded(a: nat, b: nat, k: nat)
    requires a < Pow2(k) && b < Pow2(k)
    ensures Xor(a, b) < Pow2(k)
    decreases k
  {
    if k > 0 {
      XorBounded(a / 2, b / 2, k - 1);
    }
  }

  /** One step multiplies the remainder by x, adds the new bit and subtracts G when the degree reaches 16. */
  lemma StepPoly(crc: nat, bit: bool)
    requires crc < 0x10000
    ensures var c := (crc / 0x8000 % 2 == 1) != bit;
            PolyOf(StepBit(crc, bit)) ==
            Add(Add(Shift(PolyOf(crc), 1), if bit then {16} else {}), if c then G else {})
  {
    hide PolyOf, Xor, Shift;
    ShiftRegister(crc, crc * 2 % 0x10000, crc / 0x8000 % 2 == 1);
    SubtractGenerator(crc * 2 % 0x10000, 0x1021);
  }

  lemma SubtractGenerator(low: nat, g: nat)
    requires g == 0x1021 && 16 !in PolyOf(low)
    ensures PolyOf(Xor(low, g)) == Add(PolyOf(low) + {16}, G)
  {
    hide PolyOf, Xor;
    PolyOfXor(low, g);
    LowGenerator(g);
  }

  lemma DividendAppend(init: nat, m: seq<bool>, bit: bool)
    ensures Dividend(init, m + [bit]) == Add(Shift(Dividend(init, m), 1), if bit then {16} else {})
  {
    hide PolyOf;
    var p, last := MessagePoly(m), MessagePoly([bit]);
    MessageConcat(m, [bit]);
    ShiftAdd(Shift(p, 1), last, 16);
    ShiftShift(p, 1, 16);
    ShiftShift(p, 16, 1);
    ShiftShift(PolyOf(init), |m|, 1);
    ShiftAdd(Shift(PolyOf(init), |m|), Shift(p, 16), 1);
    CoefficientIn([bit], 0);
    assert last == if bit then {0} else {};
    assert Shift(last, 16) == if bit then {16} else {};
  }

  /** The bit loop computes the remainder of polynomial division by G. */
  lemma {:induction false} CrcIsRemainder(init: nat, m: seq<bool>)
    requires init < 0x10000
    ensures FeedBits(init, m) < 0x10000
    ensures IsRemainder(Dividend(init, m), PolyOf(FeedBits(init, m)))
  {
    var crc := FeedBits(init, m);
    if m == [] {
      PolyOfBounded16(init);
      assert MessagePoly(m) == {};
      assert Shift({}, 16) == {};
      assert Shift(PolyOf(init), 0) == PolyOf(init);
      assert Add(Dividend(init, m), PolyOf(crc)) == Multiple([]);
    } else {
      var k := |m| - 1;
      var bit := m[k];
      assert m == m[..k] + [bit];
      CrcIsRemainder(init, m[..k]);
      StepRemainder(Dividend(init, m[..k]), FeedBits(init, m[..k]), bit);
      DividendAppend(init, m[..k], bit);
    }
  }

  /** The loop invariant of the division, carried over one bit. */
  lemma StepRemainder(d: Poly, crc: nat, bit: bool)
    requires crc < 0x10000 && IsRemainder(d, PolyOf(crc))
    ensures StepBit(crc, bit) < 0x10000
    ensures IsRemainder(Add(Shift(d, 1), if bit then {16} else {}), PolyOf(StepBit(crc, bit)))
  {
    StepStays(crc, bit);
    PolyOfBounded16(StepBit(crc, bit));
    StepPoly(crc, bit);
    var q :| Add(d, PolyOf(crc)) == Multiple(q);
    var c := (crc / 0x8000 % 2 == 1) != bit;
    ShiftAdd(d, PolyOf(crc), 1);
    assert (q + [c])[..|q|] == q;
    CollectGenerator(Shift(d, 1), Shift(PolyOf(crc), 1), if bit then {16} else {}, if c then G else {});
    assert Add(Add(Shift(d, 1), if bit then {16} else {}), PolyOf(StepBit(crc, bit))) == Multiple(q + [c]);
  }

  lemma CollectGenerator(d: Poly, r: Poly, b: Poly, g: Poly)
    ensures Add(Add(d, b), Add(Add(r, b), g)) == Add(Add(d, r), g)
  {
  }

  // ---------- Appending the CRC gives remainder zero ----------

  lemma {:induction false} BitStringConcat(a: seq<byte>, b: seq<byte>)
    ensures BitString(a + b) == BitString(a) + BitString(b)
  {
    if b == [] {
      assert a + b == a;
    } else {
      BitStringConcat(a, b[..|b| - 1]);
      assert (a + b)[..|a + b| - 1] == a + b[..|b| - 1];
    }
  }

  /** The bits of a byte, read as coefficients, are its binary digits. */
  lemma ByteAsPoly(b: byte)
    ensures MessagePoly(ByteBits(b)) == PolyOf(b)
  {
    assert Pow2(8) == 256;
    PolyOfBounded(b, 8);
    forall e: nat
      ensures e in MessagePoly(ByteBits(b)) <==> e in PolyOf(b)
    {
      PolyOfDigit(b, e);
      if e < 8 {
        var i: nat := 7 - e;
        assert ByteBits(b)[i] == BitAt(b, i);
        assert ByteBits(b)[i] ==> 7 - i in MessagePoly(ByteBits(b));
      }
    }
  }

  lemma MessageConcat(a: seq<bool>, b: seq<bool>)
    ensures MessagePoly(a + b) == Add(Shift(MessagePoly(a), |b|), MessagePoly(b))
  {
    forall e: nat
      ensures e in MessagePoly(a + b) <==> e in Add(Shift(MessagePoly(a), |b|), MessagePoly(b))
    {
      InShift(MessagePoly(a), |b|, e);
      if e < |a + b| {
        var i: nat := |a + b| - 1 - e;
        assert (a + b)[i] ==> |a + b| - 1 - i in MessagePoly(a + b);
        if i < |a| {
          assert a[i] ==> |a| - 1 - i in MessagePoly(a);
        } else {
          var j: nat := i - |a|;
          assert b[j] ==> |b| - 1 - j in MessagePoly(b);
        }
      }
    }
  }

  lemma {:induction false} PolyOfSum(high: nat, low: nat, k: nat)
    requires low < Pow2(k)
    ensures PolyOf(high * Pow2(k) + low) == Add(Shift(PolyOf(high), k), PolyOf(low))
    decreases k
  {
    hide PolyOf;
    var p := PolyOf(high);
    if k == 0 {
      PolyOfOne();
      assert Shift(p, 0) == p;
    } else {
      HalveSum(high, low, k);
      PolyOfSum(high, low / 2, k - 1);
      AppendDigit(low % 2, high * Pow2(k - 1) + low / 2, low / 2, p, k);
    }
  }

  lemma AppendDigit(c: nat, n: nat, low: nat, p: Poly, k: nat)
    requires k > 0 && c < 2 && PolyOf(n) == Add(Shift(p, k - 1), PolyOf(low))
    ensures PolyOf(c + 2 * n) == Add(Shift(p, k), PolyOf(c + 2 * low))
  {
    hide PolyOf, Shift;
    PolyOfJoin(c + 2 * n, c, n);
    PolyOfJoin(c + 2 * low, c, low);
    ShiftAdd(Shift(p, k - 1), PolyOf(low), 1);
    ShiftShift(p, k - 1, 1);
    InShift(p, k, 0);
    InShift(PolyOf(low), 1, 0);
    AddUnit(Unit(c), Shift(p, k), Shift(PolyOf(low), 1));
  }

  lemma HalveSum(high: nat, low: nat, k: nat)
    requires k > 0 && low < Pow2(k)
    ensures (high * Pow2(k) + low) / 2 == high * Pow2(k - 1) + low / 2
    ensures (high * Pow2(k) + low) % 2 == low % 2
  {
    assert high * Pow2(k) == 2 * (high * Pow2(k - 1));
  }

  function Word(hi: byte, lo: byte): nat { 256 * (hi as int) + lo as int }

  /** Two trailing bytes, as a polynomial, are the 16-bit number they spell. */
  lemma TwoBytes(hi: byte, lo: byte)
    ensures MessagePoly(BitString([hi, lo])) == PolyOf(Word(hi, lo))
  {
    assert [hi, lo][..1] == [hi] && [hi][..0] == [];
    assert BitString([hi, lo]) == ByteBits(hi) + ByteBits(lo);
    MessageConcat(ByteBits(hi), ByteBits(lo));
    ByteAsPoly(hi);
    ByteAsPoly(lo);
    assert Pow2(8) == 256;
    PolyOfSum(hi, lo, 8);
  }

  /** Feeding 16 more bits w multiplies dividend + w by x^16. */
  lemma DividendOfWhole(init: nat, m: seq<bool>, w: seq<bool>)
    requires |w| == 16
    ensures Dividend(init, m + w) == Shift(Add(Dividend(init, m), MessagePoly(w)), 16)
  {
    var i, p := Shift(PolyOf(init), |m|), Shift(MessagePoly(m), 16);
    MessageConcat(m, w);
    ShiftShift(PolyOf(init), |m|, 16);
    ShiftAdd(p, MessagePoly(w), 16);
    ShiftAdd(i, p, 16);
    ShiftAdd(Add(i, p), MessagePoly(w), 16);
  }

  lemma RemainderIs(d: Poly, crc: nat, w: nat)
    requires crc < 0x10000 && w < 0x10000 && IsRemainder(d, PolyOf(crc))
    ensures IsRemainder(d, PolyOf(w)) <==> w == crc
  {
    if IsRemainder(d, PolyOf(w)) {
      RemainderUnique(d, PolyOf(w), PolyOf(crc));
      PolyOfInjective(w, crc);
    }
  }

  /** Running the register over 16 more bits gives zero exactly when those bits are the CRC so far. */
  lemma ZeroAfterOwnCrc(init: nat, m: seq<bool>, w: seq<bool>, v: nat)
    requires init < 0x10000 && v < 0x10000 && |w| == 16 && MessagePoly(w) == PolyOf(v)
    ensures FeedBits(init, m + w) == 0 <==> FeedBits(init, m) == v
  {
    var d, whole := Dividend(init, m), Dividend(init, m + w);
    CrcIsRemainder(init, m);
    CrcIsRemainder(init, m + w);
    DividendOfWhole(init, m, w);
    CancelX(Add(d, PolyOf(v)), 16);
    PolyOfBounded16(v);
    RemainderIs(d, FeedBits(init, m), v);
    assert PolyOf(0) == {} && Add(whole, {}) == whole;
    RemainderIs(whole, FeedBits(init, m + w), 0);
  }

  lemma WordBytes(v: nat, hi: byte, lo: byte)
    requires v < 0x10000
    ensures Word(hi, lo) == v <==> [hi, lo] == [HighByte(v), LowByte(v)]
  {
    assert [hi, lo] == [HighByte(v), LowByte(v)] <==> hi == HighByte(v) && lo == LowByte(v);
  }

  /** A buffer has CRC zero exactly when its last two bytes are the CRC of the rest. */
  lemma CrcOfWhole(init: nat, body: seq<byte>, hi: byte, lo: byte)
    requires init < 0x10000
    ensures var c := FeedBits(init, BitString(body));
            FeedBits(init, BitString(body + [hi, lo])) == 0 <==> [hi, lo] == [HighByte(c), LowByte(c)]
  {
    BitStringConcat(body, [hi, lo]);
    TwoBytes(hi, lo);
    ZeroAfterOwnCrc(init, BitString(body), BitString([hi, lo]), Word(hi, lo));
    CrcIsRemainder(init, BitString(body));
    WordBytes(FeedBits(init, BitString(body)), hi, lo);
  }

  // ---------- Burst errors ----------

  ghost predicate DifferWithin(a: seq<bool>, b: seq<bool>, s: nat, width: nat)
    requires |a| == |b|
  {
    forall i | 0 <= i < |a| && !(s <= i < s + width) :: a[i] == b[i]
  }

  /** Messages of one length that agree outside some 16 consecutive bits have equal CRCs only if they are equal. */
  lemma BurstDetected(init: nat, a: seq<bool>, b: seq<bool>, s: nat)
    requires init < 0x10000
    requires |a| == |b| && DifferWithin(a, b, s, 16)
    ensures FeedBits(init, a) == FeedBits(init, b) <==> a == b
  {
    if FeedBits(init, a) == FeedBits(init, b) {
      var r := PolyOf(FeedBits(init, a));
      CrcIsRemainder(init, a);
      CrcIsRemainder(init, b);
      DivisibleAdd(Add(Dividend(init, a), r), Add(Dividend(init, b), r));
      AddCancel(Dividend(init, a), Dividend(init, b), r);
      AddCancel(Shift(MessagePoly(a), 16), Shift(MessagePoly(b), 16), Shift(PolyOf(init), |a|));
      ShiftAdd(MessagePoly(a), MessagePoly(b), 16);
      CancelX(Add(MessagePoly(a), MessagePoly(b)), 16);
      DifferenceWindow(a, b, s);
      NarrowMultipleIsZero(Add(MessagePoly(a), MessagePoly(b)), if s + 16 <= |a| then |a| - 16 - s else 0);
      NoDifference(a, b);
    }
  }

  lemma DifferenceWindow(a: seq<bool>, b: seq<bool>, s: nat)
    requires |a| == |b| && DifferWithin(a, b, s, 16)
    ensures var t := if s + 16 <= |a| then |a| - 16 - s else 0;
            forall e | e in Add(MessagePoly(a), MessagePoly(b)) :: t <= e < t + 16
  {
    forall e | e in Add(MessagePoly(a), MessagePoly(b))
      ensures e < |a| && s <= |a| - 1 - e < s + 16
    {
      CoefficientIn(a, e);
      CoefficientIn(b, e);
    }
  }

  lemma NoDifference(a: seq<bool>, b: seq<bool>)
    requires |a| == |b| && Add(MessagePoly(a), MessagePoly(b)) == {}
    ensures a == b
  {
    forall i | 0 <= i < |a|
      ensures a[i] == b[i]
    {
      var e := |a| - 1 - i;
      CoefficientIn(a, e);
      CoefficientIn(b, e);
      assert e !in Add(MessagePoly(a), MessagePoly(b));
    }
  }

  /** A multiple of G confined to 16 consecutive exponents is zero. */
  lemma NarrowMultipleIsZero(d: Poly, t: nat)
    requires Divisible(d) && forall e | e in d :: t <= e < t + 16
    ensures d == {}
  {
    var w: Poly := set e | e in d :: e - t;
    forall e: nat
      ensures e in d <==> e in Shift(w, t)
    {
      InShift(w, t, e);
      if e in d { assert e - t in w; }
    }
    assert d == Shift(w, t);
    CancelX(w, t);
    SmallMultipleIsZero(w);
  }

  lemma CoefficientIn(m: seq<bool>, e: nat)
    ensures e in MessagePoly(m) <==> e < |m| && m[|m| - 1 - e]
  {
    if e < |m| && m[|m| - 1 - e] {
      var i: nat := |m| - 1 - e;
      assert |m| - 1 - i in MessagePoly(m);
    }
  }
}
