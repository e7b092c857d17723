/** The command frames built by app/services/send_task.py. */
module SendTask {
  import opened Bits
  import opened ByteProcess
  import opened Constants
  import opened Crc
  import opened Tables
  import opened Wrappers

  // ---------- Text, as the source puts it together ----------

  function Hex(value: int, size: int): string {
    PrintHex(IntToBytes(value, size))
  }

  /** An empty text stands for a missing handle. */
  function OrZero(handel: string): string {
    if handel == "" then "0" else handel
  }

  function AppendWayPointsTaskMsg(wayPoints: seq<WayPoint>): string {
    if wayPoints == [] then ""
    else
      var wp := wayPoints[0];
      Hex(wp.siteCode, 4) + "0" + wp.siteHandel + Hex(wp.storageHeight, 2) + AppendWayPointsTaskMsg(wayPoints[1..])
  }

  function SiteOrZero(site: Option<nat>): int {
    if site.Some? then site.value else 0
  }

  /** The parts of a task message, put together. */
  function TaskParts(id: nat, ut: UserTask, imei: int): string
    requires ut.startSite.Some?
  {
    var way := AppendWayPointsTaskMsg(ut.wayPoints);
    var wayLen := |StripSpaces(way)| / 2;
    "40BF807F" + Hex(id, 4) + Hex(imei, 4) + "B2" + Hex(14 + wayLen, 2)
    + Hex(ut.startSite.value, 4) + ("0" + ut.startHandel) + Hex(ut.startHeight, 2)
    + Hex(SiteOrZero(ut.endSite), 4) + ("0" + OrZero(ut.endHandel)) + Hex(ut.endHeight, 2)
    + way
  }

  /** B2. A task without a start site raises. */
  function AppendTaskMsg(id: nat, ut: UserTask, imei: int): Outcome<string> {
    if ut.startSite.None? then Raises else GetCrcToSend(TaskParts(id, ut, imei), Some(COMMUNICATION_KEY))
  }

  /** 07, with a one-byte length field; `serial` is the random message number. */
  function StartTaskCmd(serial: nat, imei: int, state: string): Outcome<string> {
    GetCrcToSend("40BF807F" + Hex(serial, 4) + Hex(imei, 4) + "07" + Hex(1, 1) + state, Some(COMMUNICATION_KEY))
  }

  /** B3, with a two-byte length field. */
  function TaskLock(serial: nat, imei: int, state: int): Outcome<string> {
    GetCrcToSend("40BF807F" + Hex(serial, 4) + Hex(imei, 4) + "B3" + Hex(1, 2) + Hex(state, 1), Some(COMMUNICATION_KEY))
  }

  // ---------- Bytes, as the vehicle reads them ----------

  predicate OneDigit(handel: string) {
    |handel| == 1 && IsHex(handel[0]) && handel[0] == Upper(handel[0])
  }

  function Digit(handel: string): byte
    requires OneDigit(handel)
  {
    Nibble(handel[0])
  }

  predicate OneDigitHandles(ut: UserTask) {
    && OneDigit(ut.startHandel) && OneDigit(OrZero(ut.endHandel))
    && forall i | 0 <= i < |ut.wayPoints| :: OneDigit(ut.wayPoints[i].siteHandel)
  }

  function WayPointBytes(wp: WayPoint): Bytes
    requires OneDigit(wp.siteHandel)
  {
    IntToBytes(wp.siteCode, 4) + [Digit(wp.siteHandel)] + IntToBytes(wp.storageHeight, 2)
  }

  function WayBytes(wayPoints: seq<WayPoint>): (b: Bytes)
    requires forall i | 0 <= i < |wayPoints| :: OneDigit(wayPoints[i].siteHandel)
    ensures |b| == 7 * |wayPoints|
  {
    if wayPoints == [] then [] else WayPointBytes(wayPoints[0]) + WayBytes(wayPoints[1..])
  }

  function HeaderBytes(serial: int, imei: int, fun: byte): Bytes {
    FRAME_HEAD + IntToBytes(serial, 4) + IntToBytes(imei, 4) + [fun]
  }

  function OrderBytes(ut: UserTask): Bytes
    requires ut.startSite.Some? && OneDigitHandles(ut)
  {
    IntToBytes(ut.startSite.value, 4) + [Digit(ut.startHandel)] + IntToBytes(ut.startHeight, 2)
    + IntToBytes(SiteOrZero(ut.endSite), 4) + [Digit(OrZero(ut.endHandel))] + IntToBytes(ut.endHeight, 2)
  }

  function TaskBytes(id: nat, ut: UserTask, imei: int): Bytes
    requires ut.startSite.Some? && OneDigitHandles(ut)
  {
    HeaderBytes(id, imei, 0xB2) + IntToBytes(14 + 7 * |ut.wayPoints|, 2) + OrderBytes(ut) + WayBytes(ut.wayPoints)
  }

  lemma DigitText(handel: string)
    requires OneDigit(handel)
    ensures "0" + handel == PrintHex([Digit(handel)])
  {
    var b := Digit(handel);
    PrintHexAt([b], 0);
    assert b / 16 == 0 && b % 16 == b;
    assert HexChar(0) == '0';
    assert HexChar(b) == HEX[Nibble(handel[0])] == handel[0];
    assert |PrintHex([b])| == 2;
  }

  lemma HeaderText(serial: nat, imei: int, fun: byte)
    ensures "40BF807F" + Hex(serial, 4) + Hex(imei, 4) + PrintHex([fun]) == PrintHex(HeaderBytes(serial, imei, fun))
  {
    hide PrintHex;
    PrintHexAt(FRAME_HEAD, 0);
    PrintHexAt(FRAME_HEAD, 1);
    PrintHexAt(FRAME_HEAD, 2);
    PrintHexAt(FRAME_HEAD, 3);
    assert "40BF807F" == PrintHex(FRAME_HEAD);
    var s, i := IntToBytes(serial, 4), IntToBytes(imei, 4);
    PrintHexConcat(FRAME_HEAD, s);
    PrintHexConcat(FRAME_HEAD + s, i);
    PrintHexConcat(FRAME_HEAD + s + i, [fun]);
  }

  lemma FunText()
    ensures PrintHex([0xB2]) == "B2" && PrintHex([0xB3]) == "B3" && PrintHex([0x07]) == "07" && PrintHex([0xFF]) == "FF"
  {
    PrintHexAt([0xB2], 0);
    PrintHexAt([0xB3], 0);
    PrintHexAt([0x07], 0);
    PrintHexAt([0xFF], 0);
  }

  lemma {:induction false} WayText(wayPoints: seq<WayPoint>)
    requires forall i | 0 <= i < |wayPoints| :: OneDigit(wayPoints[i].siteHandel)
    ensures AppendWayPointsTaskMsg(wayPoints) == PrintHex(WayBytes(wayPoints))
  {
    hide PrintHex, OneDigit;
    if wayPoints == [] {
      PrintNothing();
    } else {
      var wp := wayPoints[0];
      var c, h := IntToBytes(wp.siteCode, 4), IntToBytes(wp.storageHeight, 2);
      WayText(wayPoints[1..]);
      DigitText(wp.siteHandel);
      PrintHexConcat(c, [Digit(wp.siteHandel)]);
      PrintHexConcat(c + [Digit(wp.siteHandel)], h);
      PrintHexConcat(WayPointBytes(wp), WayBytes(wayPoints[1..]));
      assert PrintHex(c) + "0" + wp.siteHandel == PrintHex(c) + ("0" + wp.siteHandel);
    }
  }

  lemma PrintNothing()
    ensures PrintHex([]) == ""
  {
  }

  lemma OrderText(ut: UserTask)
    requires ut.startSite.Some? && OneDigitHandles(ut)
    ensures Hex(ut.startSite.value, 4) + ("0" + ut.startHandel) + Hex(ut.startHeight, 2)
            + Hex(SiteOrZero(ut.endSite), 4) + ("0" + OrZero(ut.endHandel)) + Hex(ut.endHeight, 2)
            == PrintHex(OrderBytes(ut))
  {
    hide PrintHex, IntToBytes;
    DigitText(ut.startHandel);
    DigitText(OrZero(ut.endHandel));
    var a, b, c := IntToBytes(ut.startSite.value, 4), [Digit(ut.startHandel)], IntToBytes(ut.startHeight, 2);
    var d, e, f := IntToBytes(SiteOrZero(ut.endSite), 4), [Digit(OrZero(ut.endHandel))], IntToBytes(ut.endHeight, 2);
    PrintHexConcat(a, b);
    PrintHexConcat(a + b, c);
    PrintHexConcat(a + b + c, d);
    PrintHexConcat(a + b + c + d, e);
    PrintHexConcat(a + b + c + d + e, f);
  }

  lemma TaskText(id: nat, ut: UserTask, imei: int)
    requires ut.startSite.Some? && OneDigitHandles(ut)
    ensures AppendTaskMsg(id, ut, imei) == GetCrcToSend(PrintHex(TaskBytes(id, ut, imei)), Some(COMMUNICATION_KEY))
  {
    hide PrintHex, OrderBytes, HeaderBytes, IntToBytes, GetCrcToSend, StripSpaces;
    var way := AppendWayPointsTaskMsg(ut.wayPoints);
    WayText(ut.wayPoints);
    PrintHexNoSpace(WayBytes(ut.wayPoints));
    StripNothing(way);
    assert |StripSpaces(way)| / 2 == 7 * |ut.wayPoints|;
    HeaderText(id, imei, 0xB2);
    FunText();
    OrderText(ut);
    var h, l := HeaderBytes(id, imei, 0xB2), IntToBytes(14 + 7 * |ut.wayPoints|, 2);
    var o, w := OrderBytes(ut), WayBytes(ut.wayPoints);
    PrintHexConcat(h, l);
    PrintHexConcat(h + l, o);
    PrintHexConcat(h + l + o, w);
    Regroup(PrintHex(h), PrintHex(l),
            Hex(ut.startSite.value, 4), "0" + ut.startHandel, Hex(ut.startHeight, 2),
            Hex(SiteOrZero(ut.endSite), 4), "0" + OrZero(ut.endHandel), Hex(ut.endHeight, 2), way);
  }

  lemma Regroup(p: string, l: string, a: string, b: string, c: string, d: string, e: string, f: string, w: string)
    ensures p + l + a + b + c + d + e + f + w == (p + l) + (a + b + c + d + e + f) + w
  {
    assert p + l + a + b + c + d + e + f == (p + l) + (a + b + c + d + e + f);
  }

  // ---------- Decoding ----------

  function TaskFrame(id: nat, ut: UserTask, imei: int): Bytes
    requires ut.startSite.Some? && OneDigitHandles(ut)
  {
    SentFrame(TaskBytes(id, ut, imei), COMMUNICATION_KEY)
  }

  /** The text of a task parses to its frame, which passes the check. */
  lemma TaskFramePasses(id: nat, ut: UserTask, imei: int)
    requires ut.startSite.Some? && OneDigitHandles(ut)
    ensures AppendTaskMsg(id, ut, imei).Value?
    ensures ParseHex(StripSpaces(AppendTaskMsg(id, ut, imei).value)) == Value(TaskFrame(id, ut, imei))
    ensures CheckedCrc(TaskFrame(id, ut, imei), Some("123456789"))
    ensures |TaskFrame(id, ut, imei)| == 35 + 7 * |ut.wayPoints|
  {
    hide AppendTaskMsg, SentFrame, ParseHex, StripSpaces, CheckedCrc, GetCrcToSend, PrintHex;
    TaskText(id, ut, imei);
    TaskSize(id, ut, imei);
    SentFramePasses(TaskBytes(id, ut, imei), COMMUNICATION_KEY);
  }

  lemma TaskSize(id: nat, ut: UserTask, imei: int)
    requires ut.startSite.Some? && OneDigitHandles(ut)
    ensures |TaskBytes(id, ut, imei)| == 29 + 7 * |ut.wayPoints|
    ensures TaskBytes(id, ut, imei)[..4] == FRAME_HEAD
    ensures |TaskFrame(id, ut, imei)| == 35 + 7 * |ut.wayPoints|
  {
    hide Crc16;
  }

  /** The parts of a task frame around its fields. */
  lemma AroundTask(id: nat, ut: UserTask, imei: int) returns (rest: Bytes)
    requires ut.startSite.Some? && OneDigitHandles(ut)
    ensures TaskFrame(id, ut, imei) == TaskBytes(id, ut, imei) + rest
    ensures |rest| == 6
  {
    hide Crc16, TaskBytes;
    TaskSize(id, ut, imei);
    var b := TaskBytes(id, ut, imei);
    rest := IntToBytes(Crc16(b[4..] + Encode(COMMUNICATION_KEY)), 2) + FRAME_END;
    assert TaskFrame(id, ut, imei) == b + rest;
  }

  lemma LengthFits(n: nat)
    ensures (14 + 7 * n) % 0x1_0000 == 14 + 7 * n <==> n <= 9360
  {
  }

  /** Message number, imei and function code of anything that begins with a header. */
  lemma HeaderAt(serial: int, imei: int, fun: byte, tail: Bytes)
    ensures var f := HeaderBytes(serial, imei, fun) + tail;
            && |f| >= 13 && f[12] == fun
            && Field(f, 4, 8) == serial % 0x1_0000_0000 && Field(f, 8, 12) == imei % 0x1_0000_0000
  {
    hide Field, IntToBytes;
    FieldSize(serial, 4);
    FieldSize(imei, 4);
    var s, i := IntToBytes(serial, 4), IntToBytes(imei, 4);
    var f := HeaderBytes(serial, imei, fun) + tail;
    assert f == FRAME_HEAD + s + (i + [fun] + tail);
    FieldAt(FRAME_HEAD, serial, 4, i + [fun] + tail);
    assert f == (FRAME_HEAD + s) + i + ([fun] + tail);
    FieldAt(FRAME_HEAD + s, imei, 4, [fun] + tail);
  }

  /** Decoding the offsets of a task frame gives back every field modulo its width. */
  lemma HeaderFields(id: nat, ut: UserTask, imei: int)
    requires ut.startSite.Some? && OneDigitHandles(ut)
    ensures var f := TaskFrame(id, ut, imei);
            && |f| == 35 + 7 * |ut.wayPoints|
            && Field(f, 4, 8) == id % 0x1_0000_0000
            && Field(f, 8, 12) == imei % 0x1_0000_0000
            && f[12] == 0xB2
  {
    hide Field, OrderBytes, WayBytes, IntToBytes, HeaderBytes, TaskFrame;
    TaskSize(id, ut, imei);
    var rest := AroundTask(id, ut, imei);
    var h := HeaderBytes(id, imei, 0xB2);
    var tail := IntToBytes(14 + 7 * |ut.wayPoints|, 2) + OrderBytes(ut) + WayBytes(ut.wayPoints) + rest;
    assert TaskFrame(id, ut, imei) == h + tail;
    HeaderAt(id, imei, 0xB2, tail);
  }

  /** The two-byte length field is the true body length exactly up to 9360 waypoints. */
  lemma LengthField(id: nat, ut: UserTask, imei: int)
    requires ut.startSite.Some? && OneDigitHandles(ut)
    ensures var f, n := TaskFrame(id, ut, imei), |ut.wayPoints|;
            && Field(f, 13, 15) == (14 + 7 * n) % 0x1_0000
            && |f| - 21 == 14 + 7 * n
            && (Field(f, 13, 15) == |f| - 21 <==> n <= 9360)
  {
    hide Field, OrderBytes, WayBytes, IntToBytes, HeaderBytes;
    TaskSize(id, ut, imei);
    var rest := AroundTask(id, ut, imei);
    var n := |ut.wayPoints|;
    HeaderSize(id, imei, 0xB2);
    FieldSize(14 + 7 * n, 2);
    var h, l := HeaderBytes(id, imei, 0xB2), IntToBytes(14 + 7 * n, 2);
    var o := OrderBytes(ut) + WayBytes(ut.wayPoints) + rest;
    assert TaskFrame(id, ut, imei) == h + l + o;
    FieldAt(h, 14 + 7 * n, 2, o);
    LengthFits(n);
  }

  /** A task frame around its order. */
  lemma OrderParts(id: nat, ut: UserTask, imei: int) returns (p: Bytes, t: Bytes)
    requires ut.startSite.Some? && OneDigitHandles(ut)
    ensures TaskFrame(id, ut, imei) == p + OrderBytes(ut) + t
    ensures |p| == 15 && |t| >= 6
  {
    hide OrderBytes, WayBytes, IntToBytes, HeaderBytes;
    var rest := AroundTask(id, ut, imei);
    HeaderSize(id, imei, 0xB2);
    FieldSize(14 + 7 * |ut.wayPoints|, 2);
    p := HeaderBytes(id, imei, 0xB2) + IntToBytes(14 + 7 * |ut.wayPoints|, 2);
    t := WayBytes(ut.wayPoints) + rest;
    assert TaskFrame(id, ut, imei) == p + OrderBytes(ut) + t;
  }

  lemma StartFields(id: nat, ut: UserTask, imei: int)
    requires ut.startSite.Some? && OneDigitHandles(ut)
    ensures var f := TaskFrame(id, ut, imei);
            && |f| >= 35
            && Field(f, 15, 19) == ut.startSite.value % 0x1_0000_0000 && f[19] == Digit(ut.startHandel)
            && Field(f, 20, 22) == ut.startHeight % 0x1_0000
  {
    hide Field, IntToBytes, TaskFrame;
    TaskSize(id, ut, imei);
    var p, t := OrderParts(id, ut, imei);
    var a, b, c := IntToBytes(ut.startSite.value, 4), [Digit(ut.startHandel)], IntToBytes(ut.startHeight, 2);
    var tail := IntToBytes(SiteOrZero(ut.endSite), 4) + [Digit(OrZero(ut.endHandel))] + IntToBytes(ut.endHeight, 2) + t;
    FieldSize(ut.startSite.value, 4);
    FieldSize(ut.startHeight, 2);
    assert TaskFrame(id, ut, imei) == p + a + (b + c + tail);
    FieldAt(p, ut.startSite.value, 4, b + c + tail);
    assert TaskFrame(id, ut, imei) == (p + a + b) + c + tail;
    FieldAt(p + a + b, ut.startHeight, 2, tail);
    assert (p + a + b)[19] == Digit(ut.startHandel);
  }

  lemma EndFields(id: nat, ut: UserTask, imei: int)
    requires ut.startSite.Some? && OneDigitHandles(ut)
    ensures var f := TaskFrame(id, ut, imei);
            && |f| >= 35
            && Field(f, 22, 26) == SiteOrZero(ut.endSite) % 0x1_0000_0000 && f[26] == Digit(OrZero(ut.endHandel))
            && Field(f, 27, 29) == ut.endHeight % 0x1_0000
  {
    hide Field, IntToBytes, TaskFrame;
    TaskSize(id, ut, imei);
    var p, t := OrderParts(id, ut, imei);
    FieldSize(ut.startSite.value, 4);
    FieldSize(ut.startHeight, 2);
    FieldSize(SiteOrZero(ut.endSite), 4);
    FieldSize(ut.endHeight, 2);
    var q := p + IntToBytes(ut.startSite.value, 4) + [Digit(ut.startHandel)] + IntToBytes(ut.startHeight, 2);
    var d, e, g := IntToBytes(SiteOrZero(ut.endSite), 4), [Digit(OrZero(ut.endHandel))], IntToBytes(ut.endHeight, 2);
    assert TaskFrame(id, ut, imei) == q + d + (e + g + t);
    FieldAt(q, SiteOrZero(ut.endSite), 4, e + g + t);
    assert TaskFrame(id, ut, imei) == (q + d + e) + g + t;
    FieldAt(q + d + e, ut.endHeight, 2, t);
    assert (q + d + e)[26] == Digit(OrZero(ut.endHandel));
  }

  lemma HeaderSize(serial: nat, imei: int, fun: byte)
    ensures |HeaderBytes(serial, imei, fun)| == 13
  {
  }

  lemma {:induction false} WayPointAt(wayPoints: seq<WayPoint>, k: nat)
    requires k < |wayPoints| && forall i | 0 <= i < |wayPoints| :: OneDigit(wayPoints[i].siteHandel)
    ensures WayBytes(wayPoints) == WayBytes(wayPoints[..k]) + WayPointBytes(wayPoints[k]) + WayBytes(wayPoints[k + 1..])
    decreases k
  {
    hide WayPointBytes, OneDigit;
    if k == 0 {
      assert wayPoints[..0] == [];
      assert WayBytes(wayPoints[..0]) == [];
    } else {
      var tail := wayPoints[1..];
      WayPointAt(tail, k - 1);
      var head := wayPoints[..k];
      assert head[1..] == tail[..k - 1] && head[0] == wayPoints[0];
      assert wayPoints[k + 1..] == tail[k..];
      Front(WayPointBytes(wayPoints[0]), WayBytes(tail[..k - 1]), WayPointBytes(wayPoints[k]), WayBytes(tail[k..]));
    }
  }

  lemma Front(a: Bytes, b: Bytes, c: Bytes, d: Bytes)
    ensures a + (b + c + d) == (a + b) + c + d
  {
  }

  /** ... and so does every waypoint, at offset 29 + 7k. */
  lemma WayPointFields(id: nat, ut: UserTask, imei: int, k: nat)
    requires ut.startSite.Some? && OneDigitHandles(ut) && k < |ut.wayPoints|
    ensures var f, at, wp := TaskFrame(id, ut, imei), 29 + 7 * k, ut.wayPoints[k];
            && |f| >= at + 13
            && Field(f, at, at + 4) == wp.siteCode % 0x1_0000_0000 && f[at + 4] == Digit(wp.siteHandel)
            && Field(f, at + 5, at + 7) == wp.storageHeight % 0x1_0000
  {
    hide Field, WayBytes, IntToBytes, HeaderBytes, OrderBytes, TaskFrame;
    TaskSize(id, ut, imei);
    var rest := AroundTask(id, ut, imei);
    var wps, wp := ut.wayPoints, ut.wayPoints[k];
    WayPointAt(wps, k);
    var c, h, d := IntToBytes(wp.siteCode, 4), IntToBytes(wp.storageHeight, 2), [Digit(wp.siteHandel)];
    FieldSize(wp.siteCode, 4);
    FieldSize(wp.storageHeight, 2);
    FieldSize(14 + 7 * |wps|, 2);
    HeaderSize(id, imei, 0xB2);
    OrderSize(ut);
    var q := HeaderBytes(id, imei, 0xB2) + IntToBytes(14 + 7 * |wps|, 2) + OrderBytes(ut);
    var p, t := q + WayBytes(wps[..k]), WayBytes(wps[k + 1..]) + rest;
    var f := TaskFrame(id, ut, imei);
    assert f == q + WayBytes(wps) + rest;
    assert f == p + c + (d + h + t);
    FieldAt(p, wp.siteCode, 4, d + h + t);
    assert f == (p + c + d) + h + t;
    FieldAt(p + c + d, wp.storageHeight, 2, t);
    assert f[|p| + 4] == (p + c + d)[|p| + 4];
  }

  lemma OrderSize(ut: UserTask)
    requires ut.startSite.Some? && OneDigitHandles(ut)
    ensures |OrderBytes(ut)| == 14
  {
  }

  // ---------- The other two commands ----------

  function CommandFrame(serial: nat, imei: int, fun: byte, body: Bytes): Bytes {
    SentFrame(HeaderBytes(serial, imei, fun) + body, COMMUNICATION_KEY)
  }

  /** The text of a command parses to a frame with its message number, vehicle and function code. */
  lemma CommandText(serial: nat, imei: int, fun: byte, body: Bytes)
    ensures var head := "40BF807F" + Hex(serial, 4) + Hex(imei, 4) + PrintHex([fun]);
            var text := GetCrcToSend(head + PrintHex(body), Some(COMMUNICATION_KEY));
            && text.Value?
            && ParseHex(StripSpaces(text.value)) == Value(CommandFrame(serial, imei, fun, body))
            && CheckedCrc(CommandFrame(serial, imei, fun, body), Some(COMMUNICATION_KEY))
  {
    hide PrintHex, GetCrcToSend, ParseHex, StripSpaces, SentFrame, CheckedCrc;
    HeaderText(serial, imei, fun);
    PrintHexConcat(HeaderBytes(serial, imei, fun), body);
    CommandHead(serial, imei, fun, body);
    SentFramePasses(HeaderBytes(serial, imei, fun) + body, COMMUNICATION_KEY);
  }

  lemma CommandHead(serial: nat, imei: int, fun: byte, body: Bytes)
    ensures var b := HeaderBytes(serial, imei, fun) + body;
            |b| >= 4 && b[..4] == FRAME_HEAD
  {
    assert (HeaderBytes(serial, imei, fun) + body)[..4] == FRAME_HEAD;
  }

  lemma LockFrame(serial: nat, imei: int, state: int)
    ensures TaskLock(serial, imei, state).Value?
    ensures ParseHex(StripSpaces(TaskLock(serial, imei, state).value)) ==
            Value(CommandFrame(serial, imei, 0xB3, IntToBytes(1, 2) + IntToBytes(state, 1)))
    ensures var f := CommandFrame(serial, imei, 0xB3, IntToBytes(1, 2) + IntToBytes(state, 1));
            CheckedCrc(f, Some("123456789"))
  {
    hide PrintHex, GetCrcToSend, ParseHex, StripSpaces, CommandFrame, IntToBytes, CheckedCrc;
    FunText();
    var p := "40BF807F" + Hex(serial, 4) + Hex(imei, 4) + "B3";
    PrintHexConcat(IntToBytes(1, 2), IntToBytes(state, 1));
    assert p + Hex(1, 2) + Hex(state, 1) == p + (Hex(1, 2) + Hex(state, 1));
    CommandText(serial, imei, 0xB3, IntToBytes(1, 2) + IntToBytes(state, 1));
  }

  lemma StartFrame(serial: nat, imei: int)
    ensures StartTaskCmd(serial, imei, "FF").Value?
    ensures ParseHex(StripSpaces(StartTaskCmd(serial, imei, "FF").value)) ==
            Value(CommandFrame(serial, imei, 0x07, IntToBytes(1, 1) + [0xFF]))
    ensures CheckedCrc(CommandFrame(serial, imei, 0x07, IntToBytes(1, 1) + [0xFF]), Some("123456789"))
  {
    hide PrintHex, GetCrcToSend, ParseHex, StripSpaces, CommandFrame, IntToBytes, CheckedCrc;
    FunText();
    var p := "40BF807F" + Hex(serial, 4) + Hex(imei, 4) + "07";
    PrintHexConcat(IntToBytes(1, 1), [0xFF]);
    assert p + Hex(1, 1) + "FF" == p + (Hex(1, 1) + "FF");
    CommandText(serial, imei, 0x07, IntToBytes(1, 1) + [0xFF]);
  }

  // ---------- Handles of any length ----------

  function HandleDigits(ut: UserTask): nat {
    |ut.startHandel| + |OrZero(ut.endHandel)| + WayDigits(ut.wayPoints)
  }

  function WayDigits(wayPoints: seq<WayPoint>): nat {
    if wayPoints == [] then 0 else |wayPoints[0].siteHandel| + WayDigits(wayPoints[1..])
  }

  ghost predicate HexHandle(handel: string) {
    handel != "" && HexText(handel)
  }

  ghost predicate HexHandles(ut: UserTask) {
    && HexHandle(ut.startHandel) && HexHandle(OrZero(ut.endHandel))
    && forall i | 0 <= i < |ut.wayPoints| :: HexHandle(ut.wayPoints[i].siteHandel)
  }

  ghost predicate SingleHandles(ut: UserTask) {
    && |ut.startHandel| == 1 && |OrZero(ut.endHandel)| == 1
    && forall i | 0 <= i < |ut.wayPoints| :: |ut.wayPoints[i].siteHandel| == 1
  }

  lemma HexField(value: int, size: nat)
    requires 1 <= size <= 4
    ensures |Hex(value, size)| == 2 * size && HexText(Hex(value, size))
  {
    hide PrintHex, IntToBytes;
    FieldSize(value, size);
    PrintHexIsHex(IntToBytes(value, size));
  }

  lemma HexJoin(a: string, b: string)
    requires HexText(a) && HexText(b)
    ensures HexText(a + b)
  {
  }

  lemma {:induction false} WayShape(wayPoints: seq<WayPoint>)
    requires forall i | 0 <= i < |wayPoints| :: HexHandle(wayPoints[i].siteHandel)
    ensures var way := AppendWayPointsTaskMsg(wayPoints);
            HexText(way) && |way| == 13 * |wayPoints| + WayDigits(wayPoints)
    ensures WayDigits(wayPoints) >= |wayPoints|
    ensures WayDigits(wayPoints) == |wayPoints| <==> forall i | 0 <= i < |wayPoints| :: |wayPoints[i].siteHandel| == 1
  {
    hide Hex;
    if wayPoints != [] {
      var wp := wayPoints[0];
      WayShape(wayPoints[1..]);
      HexField(wp.siteCode, 4);
      HexField(wp.storageHeight, 2);
    }
  }

  lemma PartsShape(id: nat, ut: UserTask, imei: int)
    requires ut.startSite.Some? && HexHandles(ut)
    ensures HexText(TaskParts(id, ut, imei))
    ensures |TaskParts(id, ut, imei)| == 56 + 13 * |ut.wayPoints| + HandleDigits(ut)
  {
    hide Hex, StripSpaces, AppendWayPointsTaskMsg, HexText, WayDigits;
    var way := AppendWayPointsTaskMsg(ut.wayPoints);
    WayShape(ut.wayPoints);
    var a, b := Hex(id, 4), Hex(imei, 4);
    var l := Hex(14 + |StripSpaces(way)| / 2, 2);
    var c, d := Hex(ut.startSite.value, 4), Hex(ut.startHeight, 2);
    var e, f := Hex(SiteOrZero(ut.endSite), 4), Hex(ut.endHeight, 2);
    HexField(id, 4);
    HexField(imei, 4);
    HexField(14 + |StripSpaces(way)| / 2, 2);
    HexField(ut.startSite.value, 4);
    HexField(ut.startHeight, 2);
    HexField(SiteOrZero(ut.endSite), 4);
    HexField(ut.endHeight, 2);
    FixedDigits();
    HexJoin("40BF807F", a);
    HexJoin("40BF807F" + a, b);
    HexJoin("40BF807F" + a + b, "B2");
    var p := "40BF807F" + a + b + "B2";
    HexJoin(p, l);
    HexJoin(p + l, c);
    HexJoin("0", ut.startHandel);
    HexJoin(p + l + c, "0" + ut.startHandel);
    var q := p + l + c + ("0" + ut.startHandel);
    HexJoin(q, d);
    HexJoin(q + d, e);
    HexJoin("0", OrZero(ut.endHandel));
    HexJoin(q + d + e, "0" + OrZero(ut.endHandel));
    var r := q + d + e + ("0" + OrZero(ut.endHandel));
    HexJoin(r, f);
    HexJoin(r + f, way);
    assert TaskParts(id, ut, imei) == r + f + way;
  }

  lemma FixedDigits()
    ensures HexText("40BF807F") && HexText("B2") && HexText("0")
  {
  }

  /**
   * The wire has room for one digit per handle: with handles of hex digits, the frame has its nominal size
   * and its end exactly if every handle has one digit.
   */
  lemma IntactIff(id: nat, ut: UserTask, imei: int)
    requires ut.startSite.Some? && HexHandles(ut)
    ensures var text := AppendTaskMsg(id, ut, imei);
            && text.Value? && ParseHex(StripSpaces(text.value)).Value?
            && var f := ParseHex(StripSpaces(text.value)).value;
               |f| == 35 + 7 * |ut.wayPoints| && EndsFrame(f) <==> SingleHandles(ut)
  {
    hide TaskParts, ParseHex, StripSpaces, GetCrcToSend, HexText, EndsFrame, HandleDigits, HexHandles, SingleHandles;
    PartsShape(id, ut, imei);
    FrameEndIff(TaskParts(id, ut, imei), COMMUNICATION_KEY);
    SingleIff(ut);
    NominalSize(|ut.wayPoints|, HandleDigits(ut));
  }

  lemma SingleIff(ut: UserTask)
    requires HexHandles(ut)
    ensures HandleDigits(ut) >= 2 + |ut.wayPoints|
    ensures HandleDigits(ut) == 2 + |ut.wayPoints| <==> SingleHandles(ut)
  {
    hide AppendWayPointsTaskMsg, WayDigits, HexText;
    WayShape(ut.wayPoints);
  }

  lemma NominalSize(n: nat, digits: nat)
    requires digits >= 2 + n
    ensures (56 + 13 * n + digits + 12) / 2 == 35 + 7 * n && (56 + 13 * n + digits) % 2 == 0 <==> digits == 2 + n
  {
    var d := digits - 2 - n;
    DivUnique(2 * (35 + 7 * n) + d, 2, 35 + 7 * n + d / 2, d % 2);
    DivUnique(2 * (29 + 7 * n) + d, 2, 29 + 7 * n + d / 2, d % 2);
    assert 56 + 13 * n + digits == 2 * (29 + 7 * n) + d;
  }

  /** A task whose start handle has two digits: its frame is not whole. */
  lemma TwoDigitHandle(id: nat, imei: int)
    ensures var ut := UserTask(None, Created, CallDevice, NoAction, Some(7), "12", 0, None, "", 0, None, []);
            var text := AppendTaskMsg(id, ut, imei);
            && text.Value? && ParseHex(StripSpaces(text.value)).Value?
            && var f := ParseHex(StripSpaces(text.value)).value;
               |f| == 35 && !EndsFrame(f)
  {
    hide TaskParts, ParseHex, StripSpaces, GetCrcToSend, EndsFrame;
    var ut := UserTask(None, Created, CallDevice, NoAction, Some(7), "12", 0, None, "", 0, None, []);
    assert HexHandle(ut.startHandel) && HexHandle(OrZero(ut.endHandel));
    PartsShape(id, ut, imei);
    FrameEndIff(TaskParts(id, ut, imei), COMMUNICATION_KEY);
  }

  // ---------- The header of any frame ----------

  /** Whatever the row holds, a task frame that parses begins with its header. */
  lemma TaskHeader(id: nat, ut: UserTask, imei: int)
    ensures var text := AppendTaskMsg(id, ut, imei);
            text.Value? && ParseHex(StripSpaces(text.value)).Value? ==>
              HeaderBytes(id, imei, 0xB2) <= ParseHex(StripSpaces(text.value)).value
  {
    hide Hex, PrintHex, StripSpaces, GetCrcToSend, ParseHex, HeaderBytes;
    if ut.startSite.Some? {
      HeaderText(id, imei, 0xB2);
      FunText();
      var parts := TaskParts(id, ut, imei);
      var h := PrintHex(HeaderBytes(id, imei, 0xB2));
      assert parts[..|h|] == h;
      assert parts == h + parts[|h|..];
      SentPrefix(HeaderBytes(id, imei, 0xB2), parts[|h|..], COMMUNICATION_KEY);
    }
  }

  lemma CommandHeaders(serial: nat, imei: int)
    ensures HeaderBytes(serial, imei, 0xB3) <= CommandFrame(serial, imei, 0xB3, IntToBytes(1, 2) + IntToBytes(1, 1))
    ensures HeaderBytes(serial, imei, 0x07) <= CommandFrame(serial, imei, 0x07, IntToBytes(1, 1) + [0xFF])
  {
    hide Crc16;
  }
}
