/** Where the acknowledgement sits in a reply, app/tcp/response_parser.py. */
module ResponseParser {
  import opened ByteProcess
  import opened Constants

  /** FUN_CODES[28], [29], [90] to [94]: the flag is the second byte of the body. */
  const FLAG_AT_30: set<string> := {"36", "50", "91", "95", "97", "B2", "B3"}

  function Slice(s: string, from: nat, to: nat): string
    requires from <= to
  {
    if |s| <= from then "" else if |s| <= to then s[from..] else s[from..to]
  }

  /** The status of `is_0xff_or_0x00`; the failure texts are left out. */
  predicate IsFf(funCode: string, resp: string) {
    if |resp| <= 30 then false
    else if funCode == "0D" then Slice(resp, 28, 30) == "FF"
    else if funCode == "79" && Slice(resp, 28, 30) == "03" then true
    else if funCode in FLAG_AT_30 then Slice(resp, 30, 32) == "FF"
    else Slice(resp, 28, 30) == "FF"
  }

  /** The dispatcher parses a reply under the reply's own function code, byte 12. */
  predicate Acknowledged(reply: Bytes) {
    var resp := PrintHex(reply);
    IsFf(Slice(resp, 24, 26), resp)
  }

  predicate FlagInByte15(fun: byte) {
    fun in {0x36, 0x50, 0x91, 0x95, 0x97, 0xB2, 0xB3}
  }

  lemma {:induction false} SliceOfHex(b: Bytes, i: nat)
    requires i < |b|
    ensures Slice(PrintHex(b), 2 * i, 2 * i + 2) == PrintHex([b[i]])
  {
    hide PrintHex, HexChar;
    PrintHexAt(b, i);
    PrintHexAt([b[i]], 0);
    assert Slice(PrintHex(b), 2 * i, 2 * i + 2) == [PrintHex(b)[2 * i], PrintHex(b)[2 * i + 1]];
  }

  lemma SameByteText(a: byte, b: byte)
    ensures PrintHex([a]) == PrintHex([b]) <==> a == b
  {
    HexRoundTrip([a]);
    HexRoundTrip([b]);
  }

  lemma ByteText(b: byte, hi: char, lo: char)
    requires IsHex(hi) && IsHex(lo) && hi == Upper(hi) && lo == Upper(lo)
    ensures PrintHex([b]) == [hi, lo] <==> b == Pair(hi, lo)
  {
    DigitsOfPair(hi, lo);
    PrintHexAt([Pair(hi, lo)], 0);
    assert PrintHex([Pair(hi, lo)]) == [hi, lo];
    SameByteText(b, Pair(hi, lo));
  }

  /** In bytes: a long enough reply whose flag, at the place its function code puts it, is FF (or 03 for 79). */
  lemma AcknowledgedMeans(reply: Bytes)
    ensures Acknowledged(reply) <==>
            |reply| >= 16
            && (if FlagInByte15(reply[12]) then reply[15] == 0xFF
                else reply[14] == 0xFF || (reply[12] == 0x79 && reply[14] == 0x03))
  {
    hide PrintHex, Pair;
    if |reply| >= 16 {
      SliceOfHex(reply, 12);
      SliceOfHex(reply, 14);
      SliceOfHex(reply, 15);
      var f, g, h := reply[12], reply[14], reply[15];
      CodeTexts(f);
      ByteText(g, 'F', 'F');
      ByteText(h, 'F', 'F');
      ByteText(g, '0', '3');
      PairValues();
    }
  }

  lemma PairValues()
    ensures Pair('F', 'F') == 0xFF && Pair('0', '3') == 0x03
  {
  }

  lemma CodeTexts(f: byte)
    ensures PrintHex([f]) in FLAG_AT_30 <==> FlagInByte15(f)
    ensures PrintHex([f]) == "79" <==> f == 0x79
    ensures PrintHex([f]) == "0D" <==> f == 0x0D
  {
    hide PrintHex;
    ByteText(f, '3', '6');
    ByteText(f, '5', '0');
    ByteText(f, '9', '1');
    ByteText(f, '9', '5');
    ByteText(f, '9', '7');
    ByteText(f, 'B', '2');
    ByteText(f, 'B', '3');
    ByteText(f, '7', '9');
    ByteText(f, '0', 'D');
  }
}
