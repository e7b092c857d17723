/** Hex, integer and CRC helpers of app/tcp/byte_process.py. */
module ByteProcess {
  import opened Bits
  import opened Constants
  import opened Crc
  import opened Wrappers

  // ---------- Hex strings ----------

  const HEX := "0123456789ABCDEF"

  function Upper(c: char): char {
    if 'a' <= c <= 'z' then (c as int - 32) as char else c
  }

  predicate IsHex(c: char) {
    '0' <= c <= '9' || 'A' <= c <= 'F' || 'a' <= c <= 'f'
  }

  /** `_HEX.index(c.upper())` */
  function Nibble(c: char): (n: nat)
    requires IsHex(c)
    ensures n < 16 && HEX[n] == Upper(c)
  {
    if c <= '9' then c as int - '0' as int else Upper(c) as int - 'A' as int + 10
  }

  function HexChar(n: nat): (c: char)
    requires n < 16
    ensures IsHex(c) && Nibble(c) == n && c == Upper(c)
  {
    HEX[n]
  }

  function StripSpaces(s: string): string {
    if s == "" then ""
    else StripSpaces(s[..|s| - 1]) + if s[|s| - 1] == ' ' then "" else [s[|s| - 1]]
  }

  predicate AllHex(s: string) {
    forall i | 0 <= i < |s| / 2 :: IsHex(s[2 * i]) && IsHex(s[2 * i + 1])
  }

  function Pair(hi: char, lo: char): byte
    requires IsHex(hi) && IsHex(lo)
  {
    16 * Nibble(hi) + Nibble(lo)
  }

  /** Two digits to a byte; a trailing single digit is dropped, any other character raises. */
  function ParseHex(s: string): (r: Outcome<Bytes>)
    ensures r.Value? ==> |r.value| == |s| / 2
  {
    if AllHex(s) then
      Value(seq(|s| / 2, i requires 0 <= i < |s| / 2 => Pair(s[2 * i], s[2 * i + 1])))
    else Raises
  }

  method HexStringToBytes(hexString: Option<string>) returns (r: Outcome<Option<Bytes>>)
    ensures hexString.None? || hexString.value == "" ==> r == Value(None)
    ensures hexString.Some? && hexString.value != "" ==>
              r == match ParseHex(StripSpaces(hexString.value))
                   case Value(b) => Value(Some(b))
                   case Raises => Raises
  {
    if hexString.None? || hexString.value == "" {
      return Value(None);
    }
    hide StripSpaces, IsHex, Nibble, Pair;
    var s := StripSpaces(hexString.value);
    var length := |s| / 2;
    var out := new byte[length];
    for i := 0 to length
      invariant forall k | 0 <= k < i :: IsHex(s[2 * k]) && IsHex(s[2 * k + 1])
      invariant forall k | 0 <= k < i :: out[k] == Pair(s[2 * k], s[2 * k + 1])
    {
      var pos := i * 2;
      if !IsHex(s[pos]) || !IsHex(s[pos + 1]) {
        assert !(IsHex(s[2 * i]) && IsHex(s[2 * i + 1]));
        return Raises;
      }
      out[i] := Pair(s[pos], s[pos + 1]);
    }
    assert AllHex(s);
    assert out[..] == ParseHex(s).value;
    r := Value(Some(out[..]));
  }

  function PrintHex(b: Bytes): (s: string)
    ensures |s| == 2 * |b|
  {
    if b == [] then "" else [HexChar(b[0] / 16), HexChar(b[0] % 16)] + PrintHex(b[1..])
  }

  lemma {:induction false} PrintHexAt(b: Bytes, i: nat)
    requires i < |b|
    ensures PrintHex(b)[2 * i] == HexChar(b[i] / 16) && PrintHex(b)[2 * i + 1] == HexChar(b[i] % 16)
  {
    if i > 0 {
      PrintHexAt(b[1..], i - 1);
    }
  }

  lemma {:induction false} PrintHexConcat(a: Bytes, b: Bytes)
    ensures PrintHex(a + b) == PrintHex(a) + PrintHex(b)
  {
    if a == [] {
      assert a + b == b;
    } else {
      assert (a + b)[1..] == a[1..] + b;
      PrintHexConcat(a[1..], b);
    }
  }

  lemma PairOfDigits(b: byte)
    ensures Pair(HexChar(b / 16), HexChar(b % 16)) == b
  {
  }

  /** Printing then parsing gives the bytes back. */
  lemma HexRoundTrip(b: Bytes)
    ensures ParseHex(PrintHex(b)) == Value(b)
  {
    hide PrintHex, HexChar, Pair;
    var s := PrintHex(b);
    forall i | 0 <= i < |b|
      ensures IsHex(s[2 * i]) && IsHex(s[2 * i + 1]) && Pair(s[2 * i], s[2 * i + 1]) == b[i]
    {
      PrintHexAt(b, i);
      PairOfDigits(b[i]);
    }
    assert AllHex(s);
    assert ParseHex(s).value == b;
  }

  lemma DigitsOfPair(hi: char, lo: char)
    requires IsHex(hi) && IsHex(lo)
    ensures HexChar(Pair(hi, lo) / 16) == Upper(hi) && HexChar(Pair(hi, lo) % 16) == Upper(lo)
  {
    assert Pair(hi, lo) / 16 == Nibble(hi) && Pair(hi, lo) % 16 == Nibble(lo);
  }

  /** Parsing then printing normalises an even-length hex string to upper case. */
  lemma HexNormalises(s: string)
    requires |s| % 2 == 0 && AllHex(s)
    ensures PrintHex(ParseHex(s).value) == seq(|s|, i requires 0 <= i < |s| => Upper(s[i]))
  {
    hide PrintHex, HexChar, Pair, Upper;
    var b := ParseHex(s).value;
    var u := PrintHex(b);
    forall i | 0 <= i < |s|
      ensures u[i] == Upper(s[i])
    {
      var k := i / 2;
      PrintHexAt(b, k);
      assert IsHex(s[2 * k]) && IsHex(s[2 * k + 1]);
      DigitsOfPair(s[2 * k], s[2 * k + 1]);
      assert i == 2 * k || i == 2 * k + 1;
    }
    assert u == seq(|s|, i requires 0 <= i < |s| => Upper(s[i]));
  }

  lemma {:induction false} StripNothing(s: string)
    requires ' ' !in s
    ensures StripSpaces(s) == s
  {
    if s != "" {
      StripNothing(s[..|s| - 1]);
      assert s[|s| - 1] in s && s == s[..|s| - 1] + [s[|s| - 1]];
    }
  }

  lemma {:induction false} StripConcat(a: string, b: string)
    ensures StripSpaces(a + b) == StripSpaces(a) + StripSpaces(b)
  {
    if b == "" {
      assert a + b == a;
    } else {
      assert (a + b)[..|a + b| - 1] == a + b[..|b| - 1];
      StripConcat(a, b[..|b| - 1]);
    }
  }

  lemma {:induction false} PrintHexNoSpace(b: Bytes)
    ensures ' ' !in PrintHex(b)
  {
    if b != [] {
      PrintHexNoSpace(b[1..]);
    }
  }

  // ---------- Decimal text ----------

  function Dec(n: nat): (s: string)
    ensures s != ""
  {
    if n < 10 then [HEX[n]] else Dec(n / 10) + [HEX[n % 10]]
  }

  lemma {:induction false} DecInjective(a: nat, b: nat)
    requires Dec(a) == Dec(b)
    ensures a == b
  {
    if a >= 10 && b >= 10 {
      assert Dec(a)[..|Dec(a)| - 1] == Dec(a / 10);
      assert Dec(b)[..|Dec(b)| - 1] == Dec(b / 10);
      DecInjective(a / 10, b / 10);
      assert Dec(a)[|Dec(a)| - 1] == HEX[a % 10] && Dec(b)[|Dec(b)| - 1] == HEX[b % 10];
      DigitInjective(a % 10, b % 10);
    } else if a < 10 && b < 10 {
      assert Dec(a)[0] == HEX[a] && Dec(b)[0] == HEX[b];
      DigitInjective(a, b);
    }
  }

  lemma DigitInjective(a: nat, b: nat)
    requires a < 16 && b < 16 && HEX[a] == HEX[b]
    ensures a == b
  {
    assert Nibble(HexChar(a)) == a && Nibble(HexChar(b)) == b;
  }

  lemma SuffixEqual(p: string, s: string, q: string, t: string)
    requires p + s == q + t && |s| == |t|
    ensures p == q && s == t
  {
    assert (p + s)[..|p|] == p && (q + t)[..|q|] == q;
    assert (p + s)[|p|..] == s && (q + t)[|q|..] == t;
  }

  lemma PrefixEqual(p: string, s: string, q: string, t: string)
    requires p + s == q + t && |p| == |q|
    ensures p == q && s == t
  {
    assert (p + s)[..|p|] == p && (q + t)[..|q|] == q;
    assert (p + s)[|p|..] == s && (q + t)[|q|..] == t;
  }

  // ---------- Integers ----------

  /** Big-endian, after masking with 0xFFFFFFFF; any size other than 1, 2 and 3 gives four bytes. */
  function IntToBytes(value: int, size: int): Bytes {
    var v := value % 0x1_0000_0000;
    if size == 1 then [v % 256]
    else if size == 2 then [v / 0x100 % 256, v % 256]
    else if size == 3 then [v / 0x1_0000 % 256, v / 0x100 % 256, v % 256]
    else [v / 0x100_0000 % 256, v / 0x1_0000 % 256, v / 0x100 % 256, v % 256]
  }

  /** A short input is copied in reverse into the end of a zero buffer. */
  function Padded(b: Bytes, length: nat): Bytes {
    seq(length, k requires 0 <= k < length => if length - 1 - k < |b| then b[length - 1 - k] else 0)
  }

  function IntOf(b: Bytes): nat {
    if |b| == 1 then b[0]
    else if |b| == 2 then b[1] as int + 0x100 * (b[0] as int)
    else if |b| == 3 then b[2] as int + 0x100 * (b[1] as int) + 0x1_0000 * (b[0] as int)
    else if |b| == 4 then b[3] as int + 0x100 * (b[2] as int) + 0x1_0000 * (b[1] as int) + 0x100_0000 * (b[0] as int)
    else 0
  }

  function BytesToInt(b: Option<Bytes>, length: int): nat {
    if b.None? then 0
    else if |b.value| < length then IntOf(Padded(b.value, length))
    else if |b.value| == length then IntOf(b.value)
    else 0
  }

  method BytesToIntLoop(b: Option<Bytes>, length: int) returns (n: nat)
    ensures n == BytesToInt(b, length)
  {
    if b.None? {
      return 0;
    }
    var c := b.value;
    if |c| < length {
      var b1 := new byte[length](_ => 0);
      for i := 0 to length
        invariant forall k | length - i <= k < length :: b1[k] == Padded(c, length)[k]
      {
        b1[length - i - 1] := if i <= |c| - 1 then c[i] else 0;
      }
      assert b1[..] == Padded(b.value, length);
      c := b1[..];
    }
    if |c| > 0 && |c| == length {
      n := IntOf(c);
    } else {
      n := 0;
    }
  }

  function Modulus(size: int): int {
    if size == 1 then 0x100 else if size == 2 then 0x1_0000 else if size == 3 then 0x100_0000 else 0x1_0000_0000
  }

  /** A field of 1 to 4 bytes comes back modulo its width. */
  lemma IntRoundTrip(value: int, size: int)
    requires 1 <= size <= 4
    ensures BytesToInt(Some(IntToBytes(value, size)), size) == value % Modulus(size)
  {
    var v := value % 0x1_0000_0000;
    MaskThenNarrow(value, Modulus(size));
    FourDigits(v);
    assert IntOf(IntToBytes(value, size)) == v % Modulus(size);
  }

  /** Base-256 digits. */
  lemma FourDigits(v: nat)
    requires v < 0x1_0000_0000
    ensures v == v % 256 + 0x100 * (v / 0x100 % 256) + 0x1_0000 * (v / 0x1_0000 % 256)
              + 0x100_0000 * (v / 0x100_0000 % 256)
    ensures v % 0x100_0000 == v % 256 + 0x100 * (v / 0x100 % 256) + 0x1_0000 * (v / 0x1_0000 % 256)
    ensures v % 0x1_0000 == v % 256 + 0x100 * (v / 0x100 % 256)
  {
    assert v / 0x1_0000 == v / 0x100 / 0x100;
    assert v / 0x100_0000 == v / 0x1_0000 / 0x100;
  }

  lemma MaskThenNarrow(value: int, m: int)
    requires m == 0x100 || m == 0x1_0000 || m == 0x100_0000 || m == 0x1_0000_0000
    ensures value % 0x1_0000_0000 % m == value % m
  {
    var q, r := value / 0x1_0000_0000, value % 0x1_0000_0000;
    if m == 0x100 {
      DivUnique(value, 0x100, q * 0x100_0000 + r / 0x100, r % 0x100);
    } else if m == 0x1_0000 {
      DivUnique(value, 0x1_0000, q * 0x1_0000 + r / 0x1_0000, r % 0x1_0000);
    } else if m == 0x100_0000 {
      DivUnique(value, 0x100_0000, q * 0x100 + r / 0x100_0000, r % 0x100_0000);
    } else {
      DivUnique(r, 0x1_0000_0000, 0, r);
    }
  }

  lemma BytesOfNumber(b0: nat, b1: nat, b2: nat, b3: nat)
    requires b0 < 0x100 && b1 < 0x100 && b2 < 0x100 && b3 < 0x100
    ensures var v := b3 + 0x100 * b2 + 0x1_0000 * b1 + 0x100_0000 * b0;
            v < 0x1_0000_0000
            && v / 0x100_0000 == b0 && v / 0x1_0000 % 0x100 == b1 && v / 0x100 % 0x100 == b2 && v % 0x100 == b3
  {
    var v := b3 + 0x100 * b2 + 0x1_0000 * b1 + 0x100_0000 * b0;
    assert v / 0x100 == b2 + 0x100 * b1 + 0x1_0000 * b0;
    assert v / 0x1_0000 == b1 + 0x100 * b0;
  }

  /** Four bytes are the digits of the number they spell. */
  lemma ParsedIntRoundTrip(b: Bytes)
    requires |b| == 4
    ensures IntToBytes(IntOf(b), 4) == b
  {
    var v := IntOf(b);
    BytesOfNumber(b[0], b[1], b[2], b[3]);
    hide IntOf;
    assert v % 0x1_0000_0000 == v;
    assert b == [b[0], b[1], b[2], b[3]];
  }

  /** `split_byte`: nothing below eight bytes, four zero bytes when the frame is too short. */
  function SplitByte(reqb: Option<Bytes>, start: nat, end: nat): Option<Bytes> {
    if reqb.None? || |reqb.value| < 8 then None
    else if |reqb.value| < end then Some(IntToBytes(0, 4))
    else if start > end then Some([])
    else Some(reqb.value[start..end])
  }

  /** How every field of a frame is read: `bytes_to_int(split_byte(frame, start, end), end - start)`. */
  function Field(frame: Bytes, start: nat, end: nat): nat {
    BytesToInt(SplitByte(Some(frame), start, end), end - start)
  }

  /** A field decodes to what it was built from, whatever surrounds it. */
  lemma FieldAt(before: Bytes, value: int, size: nat, after: Bytes)
    requires 1 <= size <= 4 && |before| + size + |after| >= 8
    ensures Field(before + IntToBytes(value, size) + after, |before|, |before| + size) == value % Modulus(size)
  {
    hide IntToBytes, IntOf;
    FieldSize(value, size);
    var f := before + IntToBytes(value, size) + after;
    assert f[|before|..|before| + size] == IntToBytes(value, size);
    IntRoundTrip(value, size);
  }

  lemma FieldSize(value: int, size: nat)
    requires 1 <= size <= 4
    ensures |IntToBytes(value, size)| == size
  {
  }

  /** A field that the frame is too short for reads as 0. */
  lemma FieldBeyond(frame: Bytes, start: nat, end: nat)
    requires |frame| < end
    ensures Field(frame, start, end) == 0
  {
  }

  /** Base-256 value, least significant byte first. */
  function LittleEndian(b: Bytes): nat {
    if b == [] then 0 else b[0] + 0x100 * LittleEndian(b[1..])
  }

  /** Fewer bytes than asked for are read in reverse: the padding makes them little-endian. */
  lemma ShortIsLittleEndian(b: Bytes, length: nat)
    requires |b| < length <= 4
    ensures BytesToInt(Some(b), length) == LittleEndian(b)
  {
    var p := Padded(b, length);
    assert forall k | 0 <= k < length :: p[k] == if length - 1 - k < |b| then b[length - 1 - k] else 0;
    if |b| == 1 {
      assert b[1..] == [];
    } else if |b| == 2 {
      assert b[1..] == [b[1]] && b[1..][1..] == [];
    } else if |b| == 3 {
      assert b[1..] == [b[1], b[2]] && b[1..][1..] == [b[2]] && b[1..][1..][1..] == [];
    }
  }

  // ---------- CRC of a frame ----------

  predicate Latin1(s: string) {
    forall i | 0 <= i < |s| :: s[i] as int < 256
  }

  function CharByte(c: char): byte
    requires c as int < 256
  {
    c as int
  }

  function Encode(s: string): Bytes
    requires Latin1(s)
  {
    seq(|s|, i requires 0 <= i < |s| => CharByte(s[i]))
  }

  function OrEmpty(s: string): Outcome<Bytes> {
    if s == "" then Value([]) else ParseHex(StripSpaces(s))
  }

  function Drop8(s: string): string {
    if |s| <= 8 then "" else s[8..]
  }

  function RemoveNewlines(s: string): string {
    if s == "" then ""
    else RemoveNewlines(s[..|s| - 1]) + if s[|s| - 1] == '\n' then "" else [s[|s| - 1]]
  }

  function GetCrcToSend(hexStr: string, pasd: Option<string>): Outcome<string> {
    var cleaned := if ' ' in hexStr then RemoveNewlines(StripSpaces(hexStr)) else hexStr;
    var bs := OrEmpty(Drop8(cleaned));
    if pasd == Some("") then Value(hexStr + "0000" + " 50AFA05F")
    else if bs.Raises? then Raises
    else if pasd.None? then
      Value(hexStr + " " + PrintHex(IntToBytes(Crc16(bs.value), 2)) + " " + " 50AFA05F")
    else if !Latin1(pasd.value) then Raises
    else
      Value(hexStr + "" + PrintHex(IntToBytes(Crc16(bs.value + Encode(pasd.value)), 2)) + " " + " 50AFA05F")
  }

  predicate CheckedSendFrame(reqb: Bytes) {
    |reqb| > 9 && reqb[..4] == FRAME_HEAD
  }

  predicate CheckedRecvFrame(reqb: Bytes) {
    |reqb| > 9 && reqb[..4] == FRAME_RECV_HEAD && reqb[|reqb| - 4..] == FRAME_END
  }

  /** Bytes 4 up to the CRC. */
  function Body(reqb: Bytes): Bytes
    requires |reqb| > 9
  {
    reqb[4..|reqb| - 6]
  }

  function CheckedCrc(reqb: Bytes, password: Option<string>): bool {
    if !CheckedSendFrame(reqb) && !CheckedRecvFrame(reqb) then false
    else if password.Some? && !Latin1(password.value) then false
    else
      var crcOld := BytesToInt(SplitByte(Some(reqb), |reqb| - 6, |reqb| - 4), 2);
      var key := if password.Some? then Encode(password.value) else [];
      crcOld == Crc16(Body(reqb) + key)
  }

  /** What the sender's string parses to: the bytes, their CRC with the password, and the frame end. */
  function SentFrame(b: Bytes, pasd: string): Bytes
    requires |b| >= 4 && Latin1(pasd)
  {
    b + IntToBytes(Crc16(b[4..] + Encode(pasd)), 2) + FRAME_END
  }

  /** The printed bytes with CRC and frame end parse to a frame that passes the check with the same password. */
  lemma SentFramePasses(b: Bytes, pasd: string)
    requires |b| >= 4 && b[..4] == FRAME_HEAD && pasd != "" && Latin1(pasd)
    ensures GetCrcToSend(PrintHex(b), Some(pasd)).Value?
    ensures ParseHex(StripSpaces(GetCrcToSend(PrintHex(b), Some(pasd)).value)) == Value(SentFrame(b, pasd))
    ensures CheckedCrc(SentFrame(b, pasd), Some(pasd))
  {
    hide PrintHex, ParseHex, StripSpaces, RemoveNewlines, Crc16, CheckedCrc, IntToBytes, Encode;
    PrintHexNoSpace(b);
    BodyText(b);
    SentText(b, IntToBytes(Crc16(b[4..] + Encode(pasd)), 2));
    FramePasses(b, pasd);
  }

  /** The text after the eight digits of the head is the body. */
  lemma BodyText(b: Bytes)
    requires |b| >= 4
    ensures OrEmpty(Drop8(PrintHex(b))) == Value(b[4..])
  {
    hide PrintHex, ParseHex, StripSpaces;
    PrintHexConcat(b[..4], b[4..]);
    assert b == b[..4] + b[4..];
    assert PrintHex(b)[8..] == PrintHex(b[4..]);
    PrintHexNoSpace(b[4..]);
    StripNothing(PrintHex(b[4..]));
    HexRoundTrip(b[4..]);
  }

  /** The spaces that the sender inserts before the frame end disappear on parsing. */
  lemma SentText(b: Bytes, crc: Bytes)
    ensures ParseHex(StripSpaces(PrintHex(b) + "" + PrintHex(crc) + " " + " 50AFA05F")) ==
            Value(b + crc + FRAME_END)
  {
    hide PrintHex, ParseHex, StripSpaces;
    var h, c, e := PrintHex(b), PrintHex(crc), " 50AFA05F";
    StripConcat(h + "" + c + " ", e);
    StripConcat(h + "" + c, " ");
    PrintHexConcat(b, crc);
    assert h + "" + c == PrintHex(b + crc);
    PrintHexNoSpace(b + crc);
    StripNothing(PrintHex(b + crc));
    StripOneSpace();
    FrameEndText();
    assert PrintHex(b + crc) + "" == PrintHex(b + crc);
    PrintHexConcat(b + crc, FRAME_END);
    HexRoundTrip(b + crc + FRAME_END);
  }

  lemma StripOneSpace()
    ensures StripSpaces(" ") == ""
  {
    assert StripSpaces("") == "";
  }

  lemma FrameEndText()
    ensures StripSpaces(" 50AFA05F") == PrintHex(FRAME_END)
  {
    hide StripSpaces;
    StripConcat(" ", "50AFA05F");
    StripOneSpace();
    StripNothing("50AFA05F");
    assert " " + "50AFA05F" == " 50AFA05F";
    PrintHexAt(FRAME_END, 0);
    PrintHexAt(FRAME_END, 1);
    PrintHexAt(FRAME_END, 2);
    PrintHexAt(FRAME_END, 3);
    assert "50AFA05F" == PrintHex(FRAME_END);
  }

  /** Bytes that a text begins with come first in what it parses to, whatever follows. */
  lemma ParsePrefix(b: Bytes, rest: string)
    requires ParseHex(PrintHex(b) + rest).Value?
    ensures b <= ParseHex(PrintHex(b) + rest).value
  {
    hide PrintHex, HexChar, Pair;
    var s := PrintHex(b) + rest;
    var f := ParseHex(s).value;
    forall i | 0 <= i < |b|
      ensures f[i] == b[i]
    {
      PrintHexAt(b, i);
      assert s[2 * i] == PrintHex(b)[2 * i] && s[2 * i + 1] == PrintHex(b)[2 * i + 1];
      PairOfDigits(b[i]);
    }
  }

  /** ... and so do the bytes that a message to be sent begins with. */
  lemma SentPrefix(b: Bytes, rest: string, pasd: string)
    requires pasd != ""
    ensures var sent := GetCrcToSend(PrintHex(b) + rest, Some(pasd));
            sent.Value? && ParseHex(StripSpaces(sent.value)).Value? ==> b <= ParseHex(StripSpaces(sent.value)).value
  {
    hide PrintHex, ParseHex, StripSpaces, RemoveNewlines, OrEmpty, Crc16, IntToBytes;
    var h := PrintHex(b);
    var sent := GetCrcToSend(h + rest, Some(pasd));
    if sent.Value? && ParseHex(StripSpaces(sent.value)).Value? {
      var tail := sent.value[|h|..];
      assert sent.value == h + tail;
      StripConcat(h, tail);
      PrintHexNoSpace(b);
      StripNothing(h);
      ParsePrefix(b, StripSpaces(tail));
    }
  }

  ghost predicate HexText(s: string) {
    forall i | 0 <= i < |s| :: IsHex(s[i])
  }

  lemma HexTextParses(s: string)
    requires HexText(s)
    ensures ' ' !in s && ParseHex(s).Value? && StripSpaces(s) == s
  {
    hide StripSpaces, Pair;
    StripNothing(s);
  }

  ghost predicate EndsFrame(b: Bytes) {
    |b| >= 4 && b[|b| - 4..] == FRAME_END
  }

  /** Whatever hex digits are sent: the frame end survives parsing exactly if their number is even. */
  lemma FrameEndIff(t: string, pasd: string)
    requires |t| >= 8 && HexText(t) && pasd != "" && Latin1(pasd)
    ensures var sent := GetCrcToSend(t, Some(pasd));
            && sent.Value? && ParseHex(StripSpaces(sent.value)).Value?
            && var f := ParseHex(StripSpaces(sent.value)).value;
               |f| == (|t| + 12) / 2 && (EndsFrame(f) <==> |t| % 2 == 0)
  {
    hide PrintHex, ParseHex, StripSpaces, RemoveNewlines, Crc16, IntToBytes, Encode, EndsFrame, HexText;
    HexTail(t);
    HexTextParses(t);
    HexTextParses(t[8..]);
    assert OrEmpty(Drop8(t)).Value?;
    var crc := IntToBytes(Crc16(OrEmpty(Drop8(t)).value + Encode(pasd)), 2);
    FieldOfTwo(Crc16(OrEmpty(Drop8(t)).value + Encode(pasd)));
    var s := t + PrintHex(crc) + "50AFA05F";
    SentDigits(t, crc);
    EndDigits(t + PrintHex(crc));
  }

  lemma FieldOfTwo(v: int)
    ensures |IntToBytes(v, 2)| == 2
  {
  }

  lemma HexTail(t: string)
    requires |t| >= 8 && HexText(t)
    ensures Drop8(t) == t[8..] && HexText(t[8..])
  {
  }

  lemma {:induction false} PrintHexIsHex(b: Bytes)
    ensures HexText(PrintHex(b))
  {
    if b != [] {
      PrintHexIsHex(b[1..]);
    }
  }

  /** What the sender adds: the digits of the CRC and of the frame end. */
  lemma SentDigits(t: string, crc: Bytes)
    requires HexText(t)
    ensures HexText(t + PrintHex(crc))
    ensures StripSpaces(t + "" + PrintHex(crc) + " " + " 50AFA05F") == t + PrintHex(crc) + "50AFA05F"
  {
    hide PrintHex, StripSpaces;
    var c := PrintHex(crc);
    PrintHexIsHex(crc);
    HexTextParses(t + c);
    assert t + "" + c == t + c;
    StripConcat(t + "" + c + " ", " 50AFA05F");
    StripConcat(t + "" + c, " ");
    StripOneSpace();
    StripConcat(" ", "50AFA05F");
    assert " " + "50AFA05F" == " 50AFA05F";
    HexTextParses("50AFA05F");
  }

  /** The eight digits of the frame end, behind an even or odd number of digits. */
  lemma EndDigits(s: string)
    requires HexText(s)
    ensures ParseHex(s + "50AFA05F").Value?
    ensures var f := ParseHex(s + "50AFA05F").value;
            |f| == (|s| + 8) / 2 && (EndsFrame(f) <==> |s| % 2 == 0)
  {
    hide Pair, Nibble;
    var e := "50AFA05F";
    var all := s + e;
    assert forall i | 0 <= i < 8 :: IsHex(e[i]);
    assert AllHex(all) by {
      forall i | 0 <= i < |all| / 2
        ensures IsHex(all[2 * i]) && IsHex(all[2 * i + 1])
      {
        assert all[2 * i] == if 2 * i < |s| then s[2 * i] else e[2 * i - |s|];
        assert all[2 * i + 1] == if 2 * i + 1 < |s| then s[2 * i + 1] else e[2 * i + 1 - |s|];
      }
    }
    var f := ParseHex(all).value;
    EndPairs();
    if |s| % 2 == 0 {
      var n := |s| / 2;
      assert f[n] == Pair(e[0], e[1]) && f[n + 1] == Pair(e[2], e[3]);
      assert f[n + 2] == Pair(e[4], e[5]) && f[n + 3] == Pair(e[6], e[7]);
      assert f[|f| - 4..] == FRAME_END;
    } else {
      var n := |f| - 1;
      assert 2 * n == |s| + 5;
      assert f[n] == Pair(e[5], e[6]);
      assert EndsFrame(f) ==> f[n] == f[|f| - 4..][3];
    }
  }

  lemma EndPairs()
    ensures Pair('5', '0') == 0x50 && Pair('A', 'F') == 0xAF && Pair('A', '0') == 0xA0 && Pair('5', 'F') == 0x5F
    ensures Pair('0', '5') == 0x05
  {
  }

  lemma FramePasses(b: Bytes, pasd: string)
    requires |b| >= 4 && b[..4] == FRAME_HEAD && Latin1(pasd)
    ensures CheckedCrc(SentFrame(b, pasd), Some(pasd))
  {
    hide Crc16;
    var crc := Crc16(b[4..] + Encode(pasd));
    CrcFits(b[4..] + Encode(pasd));
    var f := SentFrame(b, pasd);
    assert f[..4] == FRAME_HEAD;
    assert Body(f) == b[4..];
    assert f[|f| - 6..|f| - 4] == IntToBytes(crc, 2);
    IntRoundTrip(crc, 2);
  }

  lemma CrcFits(data: Bytes)
    ensures Crc16(data) < 0x10000
  {
    CrcIsRemainder(0xFFFF, BitString(data));
  }

  /** Accepted are exactly the frames of either kind whose two bytes before the end are the CRC of body and password. */
  lemma CheckedCrcIff(f: Bytes, password: Option<string>)
    ensures CheckedCrc(f, password) <==>
              && |f| > 9
              && (f[..4] == FRAME_HEAD || (f[..4] == FRAME_RECV_HEAD && f[|f| - 4..] == FRAME_END))
              && (password.Some? ==> Latin1(password.value))
              && var c := Crc16(f[4..|f| - 6] + if password.Some? then Encode(password.value) else []);
                 f[|f| - 6] as int == c / 256 % 256 && f[|f| - 5] as int == c % 256
  {
    hide Crc16, Encode;
    if |f| > 9 && (password.Some? ==> Latin1(password.value)) {
      var data := f[4..|f| - 6] + if password.Some? then Encode(password.value) else [];
      CrcFits(data);
      assert f[|f| - 6..|f| - 4] == [f[|f| - 6], f[|f| - 5]];
    }
  }

  /** Without a password the CRC covers the body alone; the empty password writes zeros in its place. */
  lemma SentWithoutPassword(b: Bytes)
    requires |b| >= 4 && b[..4] == FRAME_HEAD
    ensures var sent := GetCrcToSend(PrintHex(b), None);
            && sent.Value? && ParseHex(StripSpaces(sent.value)) == Value(b + IntToBytes(Crc16(b[4..]), 2) + FRAME_END)
            && CheckedCrc(b + IntToBytes(Crc16(b[4..]), 2) + FRAME_END, None)
    ensures var sent := GetCrcToSend(PrintHex(b), Some(""));
            sent.Value? && ParseHex(StripSpaces(sent.value)) == Value(b + [0, 0] + FRAME_END)
  {
    hide PrintHex, ParseHex, StripSpaces, RemoveNewlines, Crc16, CheckedCrc, IntToBytes, Encode;
    PrintHexNoSpace(b);
    BodyText(b);
    var crc := IntToBytes(Crc16(b[4..]), 2);
    SentSpaced(b, crc);
    SentZeros(b);
    FramePasses(b, "");
    EncodeNothing();
    assert b[4..] + [] == b[4..];
    CheckedCrcNoPassword(SentFrame(b, ""));
  }

  lemma EncodeNothing()
    ensures Encode("") == []
  {
  }

  lemma CheckedCrcNoPassword(f: Bytes)
    ensures CheckedCrc(f, Some("")) == CheckedCrc(f, None)
  {
    EncodeNothing();
  }

  lemma SentSpaced(b: Bytes, crc: Bytes)
    ensures ParseHex(StripSpaces(PrintHex(b) + " " + PrintHex(crc) + " " + " 50AFA05F")) == Value(b + crc + FRAME_END)
  {
    hide PrintHex, ParseHex, StripSpaces;
    var h, c, e := PrintHex(b), PrintHex(crc), " 50AFA05F";
    StripConcat(h + " " + c + " ", e);
    StripConcat(h + " " + c, " ");
    StripConcat(h + " ", c);
    StripConcat(h, " ");
    StripConcat(h + "" + c + " ", e);
    StripConcat(h + "" + c, " ");
    StripConcat(h + "", c);
    StripOneSpace();
    assert h + "" == h && StripSpaces(h) + "" == StripSpaces(h);
    SentText(b, crc);
  }

  lemma SentZeros(b: Bytes)
    ensures ParseHex(StripSpaces(PrintHex(b) + "0000" + " 50AFA05F")) == Value(b + [0, 0] + FRAME_END)
  {
    hide PrintHex, ParseHex, StripSpaces;
    var h, e := PrintHex(b), " 50AFA05F";
    PrintHexAt([0, 0], 0);
    PrintHexAt([0, 0], 1);
    assert PrintHex([0, 0]) == "0000";
    StripConcat(h + "0000", e);
    StripConcat(h + "" + "0000" + " ", e);
    StripConcat(h + "" + "0000", " ");
    StripOneSpace();
    assert h + "" + "0000" == h + "0000" && StripSpaces(h + "0000") + "" == StripSpaces(h + "0000");
    SentText(b, [0, 0]);
  }

  // ---------- Burst errors in a frame ----------

  lemma ByteBitsInjective(a: byte, b: byte)
    requires ByteBits(a) == ByteBits(b)
    ensures a == b
  {
    ByteAsPoly(a);
    ByteAsPoly(b);
    PolyOfInjective(a, b);
  }

  lemma {:induction false} BitStringInjective(a: Bytes, b: Bytes)
    requires |a| == |b| && BitString(a) == BitString(b)
    ensures a == b
  {
    if a != [] {
      var n := |a| - 1;
      assert BitString(a)[..8 * n] == BitString(a[..n]) && BitString(a)[8 * n..] == ByteBits(a[n]);
      assert BitString(b)[..8 * n] == BitString(b[..n]) && BitString(b)[8 * n..] == ByteBits(b[n]);
      BitStringInjective(a[..n], b[..n]);
      ByteBitsInjective(a[n], b[n]);
      assert a == a[..n] + [a[n]] && b == b[..n] + [b[n]];
    }
  }

  /**
   * Two frames of one length that agree outside the body, and whose bodies agree outside some
   * 16 consecutive bits, pass the check with the same password only if they are the same frame.
   */
  lemma BurstInFrame(a: Bytes, b: Bytes, password: Option<string>, s: nat)
    requires |a| == |b| > 9 && a[..4] == b[..4] && a[|a| - 6..] == b[|b| - 6..]
    requires DifferWithin(BitString(Body(a)), BitString(Body(b)), s, 16)
    ensures CheckedCrc(a, password) && CheckedCrc(b, password) ==> a == b
  {
    hide Crc16, BytesToInt, Encode;
    var key := if password.Some? && Latin1(password.value) then Encode(password.value) else [];
    var x, y, n := Body(a), Body(b), |a|;
    assert a[n - 6..n - 4] == a[n - 6..][..2] && b[n - 6..n - 4] == b[n - 6..][..2];
    DetectedBehindKey(x, y, key, s);
    assert a == a[..4] + x + a[n - 6..];
    assert b == b[..4] + y + b[n - 6..];
  }

  lemma DetectedBehindKey(x: Bytes, y: Bytes, key: Bytes, s: nat)
    requires |x| == |y| && DifferWithin(BitString(x), BitString(y), s, 16)
    ensures Crc16(x + key) == Crc16(y + key) ==> x == y
  {
    hide FeedBits, BitString;
    var p, q, k := BitString(x), BitString(y), BitString(key);
    BitStringConcat(x, key);
    BitStringConcat(y, key);
    BurstDetected(0xFFFF, p + k, q + k, s);
    assert (p + k)[..|p|] == p && (q + k)[..|q|] == q;
    if p == q {
      BitStringInjective(x, y);
    }
  }
}
