/** Sending the next task to an idle vehicle: `dispatch_task` of app/services/send_task.py. */
module Dispatch {
  import opened ByteProcess
  import opened Constants
  import opened Crc
  import opened FutureManager
  import opened ResponseParser
  import opened SendTask
  import opened Tables
  import opened TaskOps
  import opened UserTaskProxy
  import opened Wrappers

  /** What dispatching reads of the memory table parsed from a heartbeat. */
  datatype MemoryTable = MemoryTable(
    imei: nat, taskFlag: nat, forkStatus: nat, flag: nat, startSiteCode: nat, lockState: nat)

  function ParseMemoryTable(frame: Bytes): MemoryTable {
    MemoryTable(Field(frame, 8, 12), Field(frame, 31, 32) / 16 % 256, Field(frame, 30, 31) % 4,
                Field(frame, 14, 15), Field(frame, 15, 18), Field(frame, 120, 121) / 8 % 2)
  }

  predicate ShouldDispatch(table: MemoryTable) {
    table.taskFlag == 0 && table.forkStatus == 0
    && table.flag in {0x10, 0x82, 0x83, 0x8E, 0x8F, 0x95, 0xE5} && table.startSiteCode != 0
  }

  /** The vehicle and the lock bit that a dispatch goes by. */
  lemma MemoryFields(frame: Bytes)
    requires |frame| >= 121
    ensures ParseMemoryTable(frame).imei == Four(frame, 8)
    ensures ParseMemoryTable(frame).lockState == frame[120] as int / 8 % 2
  {
    assert frame[8..12] == [frame[8], frame[9], frame[10], frame[11]] && frame[120..121] == [frame[120]];
  }

  /** A heartbeat that asks for work reports none: before dispatching it can at most mark its columns full. */
  lemma IdleHeartbeatLeavesTasks(p: Plant, frame: Bytes, unlocked: bool, now: int)
    requires ShouldDispatch(ParseMemoryTable(frame))
    ensures Heartbeat(p, ParseReport(frame), unlocked, now) == p.(rows := RowEffect(p.rows, ParseReport(frame)))
    ensures forall c | c in p.rows.storages && p.rows.storages[c].siteType == Single ::
              c in RowEffect(p.rows, ParseReport(frame)).storages
              && RowEffect(p.rows, ParseReport(frame)).storages[c] == p.rows.storages[c]
  {
  }

  /** When a vehicle asks for work, in the bytes of its heartbeat. */
  lemma ShouldDispatchIff(frame: Bytes)
    ensures ShouldDispatch(ParseMemoryTable(frame)) <==>
              && |frame| >= 18 && frame[14] in {0x10, 0x82, 0x83, 0x8E, 0x8F, 0x95, 0xE5}
              && frame[15..18] != [0, 0, 0]
              && (|frame| > 30 ==> frame[30] % 4 == 0) && (|frame| > 31 ==> frame[31] < 16)
  {
    if |frame| >= 18 {
      assert frame[14..15] == [frame[14]] && frame[15..18] == [frame[15], frame[16], frame[17]];
    }
    if |frame| > 31 {
      assert frame[30..31] == [frame[30]] && frame[31..32] == [frame[31]];
    } else if |frame| > 30 {
      assert frame[30..31] == [frame[30]];
    }
  }

  // ---------- The frames of one dispatch ----------

  /** Lock if unlocked, then the task, then start; the two serials are the random message numbers. */
  function Plan(id: nat, ut: UserTask, imei: nat, lockState: nat, serials: (nat, nat)): Outcome<seq<string>> {
    var task := AppendTaskMsg(id, ut, imei);
    var start := StartTaskCmd(serials.1, imei, "FF");
    var lock := TaskLock(serials.0, imei, 1);
    if task.Raises? || start.Raises? then Raises
    else if lockState != 0 then Value([task.value, start.value])
    else if lock.Raises? then Raises
    else Value([lock.value, task.value, start.value])
  }

  /** What the channel makes of a text; anything unparsable or too short is answered with a failure. */
  function ToFrame(text: string): Option<Frame> {
    var b := ParseHex(StripSpaces(text));
    if b.Value? && |b.value| >= 13 then Some(b.value) else None
  }

  /** The frames written are the first ones of the plan for the vehicle's best waiting task. */
  ghost predicate StartsPlan(db: Rows, table: MemoryTable, serials: (nat, nat), id: nat, written: seq<Frame>) {
    && IsPick(db, table.imei, Some(id))
    && var plan := Plan(id, db.tasks[id], table.imei, table.lockState, serials);
       plan.Value? && |written| <= |plan.value|
       && forall i | 0 <= i < |written| :: ToFrame(plan.value[i]) == Some(written[i])
  }

  ghost predicate WholePlan(db: Rows, table: MemoryTable, serials: (nat, nat), id: nat, written: seq<Frame>) {
    StartsPlan(db, table, serials, id, written)
    && |written| == |Plan(id, db.tasks[id], table.imei, table.lockState, serials).value|
  }

  /** An acknowledging reply to this very request arrived while it was awaited. */
  ghost predicate AnsweredIn(f: Frame, events: seq<Event>) {
    exists g: Frame :: Arrive(g) in events && SameRequest(f, g) && Acknowledged(g)
  }

  function EventsOf(during: seq<seq<Event>>, i: nat): seq<Event> {
    if i < |during| then during[i] else []
  }

  ghost predicate AllAnswered(written: seq<Frame>, during: seq<seq<Event>>) {
    forall i | 0 <= i < |written| :: AnsweredIn(written[i], EventsOf(during, i))
  }

  // ---------- What makes a dispatch succeed ----------

  /** The text parses, and the first event that concerns its request is an acknowledging reply. */
  ghost predicate ServedAt(text: string, events: seq<Event>, number: nat) {
    && ToFrame(text).Some?
    && exists k: nat :: AnswersFirst(ToFrame(text).value, number, events, k) && Acknowledged(events[k].frame)
  }

  /** The number of the i-th future: each send makes one, other tasks make theirs meanwhile. */
  function NumberAt(first: nat, during: seq<seq<Event>>, i: nat): nat {
    if i == 0 then first else NumberAt(first, during, i - 1) + 1 + Requests(EventsOf(during, i - 1))
  }

  ghost predicate AllServed(texts: seq<string>, during: seq<seq<Event>>, first: nat) {
    forall i | 0 <= i < |texts| :: ServedAt(texts[i], EventsOf(during, i), NumberAt(first, during, i))
  }

  function Dispatched(db: Rows, imei: nat, id: nat): Rows
    requires id in db.tasks
  {
    db.(tasks := db.tasks[id := db.tasks[id].(deviceImei := Some(imei), sendFlag := Executing)])
  }

  lemma ReplyIsOwn(f: Frame, id: nat, events: seq<Event>, m: Bytes)
    requires ReplyTo(f, id, events) == Some(m)
    ensures |m| >= 13 && Arrive(m) in events && SameRequest(f, m)
  {
    FateIsFirstReply(f, id, events, m);
    var j: nat :| j < |events| && events[j].Arrive? && Decides(events[j], f, id) && events[j].frame == m;
    assert events[j] == Arrive(m);
  }

  class SendTaskService {
    var dispatchBusy: set<nat>

    constructor ()
      ensures dispatchBusy == {}
    {
      dispatchBusy := {};
    }

    /**
     * `ready` is the serverIsReady switch, `during[i]` what happens on the event loop while the
     * i-th reply is awaited. The call is atomic with respect to the tables.
     */
    method DispatchTask(session: Session, ops: TaskOpService, futures: AgvChannelFutureManager,
                        table: MemoryTable, ready: bool, serials: (nat, nat), during: seq<seq<Event>>)
      returns (sent: Outcome<bool>, written: seq<Frame>)
      requires InRange(futures.Abs())
      modifies this, session, ops, futures
      ensures InRange(futures.Abs())
      ensures dispatchBusy == old(dispatchBusy) && ops.deviceBusy == old(ops.deviceBusy)
      ensures sent == Value(true) ==>
                exists id :: WholePlan(old(session.rows), table, serials, id, written)
                             && session.rows == Dispatched(old(session.rows), table.imei, id)
                             && SafelySent(id, table.imei, table.lockState, serials, written, during)
                             && AllAnswered(written, during)
      ensures sent != Value(true) ==> session.rows == old(session.rows)
      ensures written == [] || exists id :: StartsPlan(old(session.rows), table, serials, id, written)
      ensures !ready || table.imei in dispatchBusy || Vehicle(table.imei) in ops.deviceBusy
              || IsPick(old(session.rows), table.imei, None) ==>
                sent == Value(false) && written == []
      ensures forall id | ready && table.imei !in dispatchBusy && Vehicle(table.imei) !in ops.deviceBusy
                          && IsPick(old(session.rows), table.imei, Some(id)) ::
                SucceedsIff(old(session.rows), table, serials, during, |old(futures.made)|, id, sent, written)
    {
      if table.imei in dispatchBusy {
        return Value(false), [];
      }
      dispatchBusy := dispatchBusy + {table.imei};
      if ready {
        sent, written := SendBest(session, ops, futures, table, serials, during);
      } else {
        sent, written := Value(false), [];
      }
      dispatchBusy := dispatchBusy - {table.imei};
    }

    /** The body of the `try` once the server is ready. */
    method SendBest(session: Session, ops: TaskOpService, futures: AgvChannelFutureManager,
                    table: MemoryTable, serials: (nat, nat), during: seq<seq<Event>>)
      returns (sent: Outcome<bool>, written: seq<Frame>)
      requires InRange(futures.Abs())
      modifies session, ops, futures
      ensures InRange(futures.Abs()) && ops.deviceBusy == old(ops.deviceBusy)
      ensures sent == Value(true) ==>
                exists id :: WholePlan(old(session.rows), table, serials, id, written)
                             && session.rows == Dispatched(old(session.rows), table.imei, id)
                             && SafelySent(id, table.imei, table.lockState, serials, written, during)
                             && AllAnswered(written, during)
      ensures sent != Value(true) ==> session.rows == old(session.rows)
      ensures written == [] || exists id :: StartsPlan(old(session.rows), table, serials, id, written)
      ensures Vehicle(table.imei) in ops.deviceBusy || IsPick(old(session.rows), table.imei, None) ==>
                sent == Value(false) && written == []
      ensures forall id | Vehicle(table.imei) !in ops.deviceBusy && IsPick(old(session.rows), table.imei, Some(id)) ::
                SucceedsIff(old(session.rows), table, serials, during, |old(futures.made)|, id, sent, written)
    {
      hide IsPick, Plan, AllServed, AllAnswered, SafelySent, ToFrame, InRange;
      sent, written := Value(false), [];
      var pick := ops.EditAndGetAnTask(session, table.imei);
      PicksAgree(session.rows, table.imei);
      if pick.Some? {
        var id := pick.value;
        PickWaits(session.rows, table.imei, id);
        var plan := Plan(id, session.rows.tasks[id], table.imei, table.lockState, serials);
        if plan.Raises? {
          sent := Raises;
        } else {
          var complete;
          complete, written := SendAll(futures, plan.value, during);
          assert StartsPlan(old(session.rows), table, serials, id, written);
          if complete {
            assert WholePlan(old(session.rows), table, serials, id, written);
            DispatchSafety(old(session.rows), table, serials, id, written, during);
            var ut := session.rows.tasks[id].(deviceImei := Some(table.imei), sendFlag := Executing);
            session.rows := session.rows.(tasks := session.rows.tasks[id := ut]);
            sent := Value(true);
          }
        }
      }
    }
  }

  /** The dispatch of this task raises if its plan does, and otherwise succeeds exactly if every frame is served. */
  ghost predicate SucceedsIff(db: Rows, table: MemoryTable, serials: (nat, nat), during: seq<seq<Event>>, first: nat,
                              id: nat, sent: Outcome<bool>, written: seq<Frame>)
  {
    && id in db.tasks
    && var plan := Plan(id, db.tasks[id], table.imei, table.lockState, serials);
       if plan.Raises? then sent == Raises && written == []
       else sent == Value(AllServed(plan.value, during, first))
  }

  lemma PicksAgree(db: Rows, imei: nat)
    ensures forall a, b | IsPick(db, imei, a) && IsPick(db, imei, b) :: a == b
  {
    hide IsPick;
    forall a, b | IsPick(db, imei, a) && IsPick(db, imei, b)
      ensures a == b
    {
      PickUnique(db, imei, a, b);
    }
  }

  /** One request: whether it was written, and whether its reply acknowledges it. */
  method SendOne(futures: AgvChannelFutureManager, text: string, events: seq<Event>)
    returns (f: Option<Frame>, ok: bool)
    requires InRange(futures.Abs())
    modifies futures
    ensures InRange(futures.Abs())
    ensures f == ToFrame(text)
    ensures ok ==> f.Some? && AnsweredIn(f.value, events)
    ensures ok <==> ServedAt(text, events, |old(futures.made)|)
    ensures |futures.made| == |old(futures.made)| + if f.Some? then 1 + Requests(events) else 0
  {
    hide ToFrame, Acknowledged, SameRequest, AnswersFirst, Requests;
    f, ok := ToFrame(text), false;
    if f.Some? {
      ghost var number := |futures.made|;
      var reply := futures.SendTcpMsg(f.value, events);
      if reply.Some? && Acknowledged(reply.value) {
        ReplyIsOwn(f.value, number, events, reply.value);
        assert AnsweredIn(f.value, events);
        ok := true;
      }
    }
  }

  /** Frame by frame, stopping at the first that is not acknowledged. */
  method SendAll(futures: AgvChannelFutureManager, texts: seq<string>, during: seq<seq<Event>>)
    returns (complete: bool, written: seq<Frame>)
    requires InRange(futures.Abs())
    modifies futures
    ensures InRange(futures.Abs())
    ensures |written| <= |texts| && forall i | 0 <= i < |written| :: ToFrame(texts[i]) == Some(written[i])
    ensures complete ==> |written| == |texts| && AllAnswered(written, during)
    ensures complete <==> AllServed(texts, during, |old(futures.made)|)
  {
    hide ToFrame, AnsweredIn, InRange, ServedAt, Requests, AllAnswered, AllServed, EventsOf, NumberAt;
    written := [];
    ghost var first := |futures.made|;
    NoneSent(texts, during, first);
    for i := 0 to |texts|
      invariant InRange(futures.Abs())
      invariant |written| == i && forall k | 0 <= k < i :: ToFrame(texts[k]) == Some(written[k])
      invariant AllAnswered(written, during)
      invariant |futures.made| == NumberAt(first, during, i)
      invariant AllServed(texts[..i], during, first)
    {
      ServedSoFar(texts, during, first, i);
      NextNumber(first, during, i);
      var f, ok := SendOne(futures, texts[i], EventsOf(during, i));
      if ok {
        AnsweredSoFar(written, during, f.value);
      }
      if f.Some? {
        written := written + [f.value];
      }
      if !ok {
        return false, written;
      }
    }
    assert texts[..|texts|] == texts;
    complete := true;
  }

  lemma NoneSent(texts: seq<string>, during: seq<seq<Event>>, first: nat)
    ensures AllServed(texts[..0], during, first) && AllAnswered([], during) && NumberAt(first, during, 0) == first
  {
  }

  lemma ServedSoFar(texts: seq<string>, during: seq<seq<Event>>, first: nat, i: nat)
    requires i < |texts|
    ensures AllServed(texts, during, first) ==> ServedAt(texts[i], EventsOf(during, i), NumberAt(first, during, i))
    ensures AllServed(texts[..i + 1], during, first) <==>
              && AllServed(texts[..i], during, first)
              && ServedAt(texts[i], EventsOf(during, i), NumberAt(first, during, i))
  {
    hide ServedAt, NumberAt, EventsOf;
    assert forall k | 0 <= k < i :: texts[..i][k] == texts[k] && texts[..i + 1][k] == texts[k];
    assert texts[..i + 1][i] == texts[i];
  }

  lemma AnsweredSoFar(written: seq<Frame>, during: seq<seq<Event>>, f: Frame)
    requires AllAnswered(written, during) && AnsweredIn(f, EventsOf(during, |written|))
    ensures AllAnswered(written + [f], during)
  {
    hide AnsweredIn, EventsOf;
  }

  lemma NextNumber(first: nat, during: seq<seq<Event>>, i: nat)
    ensures NumberAt(first, during, i + 1) == NumberAt(first, during, i) + 1 + Requests(EventsOf(during, i))
  {
  }

  // ---------- What was answered ----------

  function Planned(id: nat, ut: UserTask, imei: nat, lockState: nat, serials: (nat, nat)): seq<Bytes>
    requires ut.startSite.Some? && OneDigitHandles(ut)
  {
    (if lockState == 0 then [CommandFrame(serials.0, imei, 0xB3, IntToBytes(1, 2) + IntToBytes(1, 1))] else [])
    + [TaskFrame(id, ut, imei), CommandFrame(serials.1, imei, 0x07, IntToBytes(1, 1) + [0xFF])]
  }

  lemma CommandFields(serial: nat, imei: nat, fun: byte, body: Bytes)
    ensures var f := CommandFrame(serial, imei, fun, body);
            && |f| >= 19 && f[12] == fun
            && Field(f, 4, 8) == serial % 0x1_0000_0000 && Field(f, 8, 12) == imei % 0x1_0000_0000
  {
    hide Field, Crc16, IntToBytes, HeaderBytes;
    HeaderShape(serial, imei, fun);
    var b := HeaderBytes(serial, imei, fun) + body;
    var crc := Crc16(b[4..] + Encode(COMMUNICATION_KEY));
    FieldSize(crc, 2);
    var tail := body + IntToBytes(crc, 2) + FRAME_END;
    assert CommandFrame(serial, imei, fun, body) == HeaderBytes(serial, imei, fun) + tail;
    HeaderAt(serial, imei, fun, tail);
  }

  /** For a task with one-digit handles the plan is the lock if unlocked, the task frame and the start frame. */
  lemma PlanIs(id: nat, ut: UserTask, imei: nat, lockState: nat, serials: (nat, nat))
    requires ut.startSite.Some? && OneDigitHandles(ut)
    ensures var plan, frames := Plan(id, ut, imei, lockState, serials), Planned(id, ut, imei, lockState, serials);
            && plan.Value? && |plan.value| == |frames|
            && forall i | 0 <= i < |frames| :: |frames[i]| >= 13 && ToFrame(plan.value[i]) == Some(frames[i])
  {
    hide AppendTaskMsg, StartTaskCmd, TaskLock, ParseHex, StripSpaces, TaskFrame, CommandFrame, IntToBytes;
    TaskFramePasses(id, ut, imei);
    LockFrame(serials.0, imei, 1);
    StartFrame(serials.1, imei);
    CommandFields(serials.0, imei, 0xB3, IntToBytes(1, 2) + IntToBytes(1, 1));
    CommandFields(serials.1, imei, 0x07, IntToBytes(1, 1) + [0xFF]);
  }

  /** A reply to this request with FF where the request's own function code puts the flag. */
  predicate SaysFf(f: Frame, g: Frame) {
    SameRequest(f, g) && |g| >= 16 && (if FlagInByte15(f[12]) then g[15] else g[14]) == 0xFF
  }

  ghost predicate SaidFfIn(f: Frame, events: seq<Event>) {
    exists g: Frame :: Arrive(g) in events && SaysFf(f, g)
  }

  lemma AnswerSaysFf(f: Frame, events: seq<Event>)
    requires AnsweredIn(f, events) && f[12] in {0xB3, 0xB2, 0x07}
    ensures SaidFfIn(f, events)
  {
    hide Acknowledged;
    var g: Frame :| Arrive(g) in events && SameRequest(f, g) && Acknowledged(g);
    AcknowledgedMeans(g);
    SameFunction(f, g);
    assert SaysFf(f, g);
  }

  /** The first thirteen bytes of the planned frames: head, message number, imei and function code. */
  function Headers(id: nat, imei: nat, lockState: nat, serials: (nat, nat)): seq<Bytes> {
    (if lockState == 0 then [HeaderBytes(serials.0, imei, 0xB3)] else [])
    + [HeaderBytes(id, imei, 0xB2), HeaderBytes(serials.1, imei, 0x07)]
  }

  lemma HeaderShape(serial: nat, imei: nat, fun: byte)
    ensures |HeaderBytes(serial, imei, fun)| == 13 && HeaderBytes(serial, imei, fun)[12] == fun
  {
  }

  lemma PlanHeaders(id: nat, ut: UserTask, imei: nat, lockState: nat, serials: (nat, nat))
    ensures var plan, headers := Plan(id, ut, imei, lockState, serials), Headers(id, imei, lockState, serials);
            plan.Value? ==>
              && |plan.value| == |headers|
              && forall i | 0 <= i < |headers| ::
                   ToFrame(plan.value[i]).Some? ==> headers[i] <= ToFrame(plan.value[i]).value
  {
    hide AppendTaskMsg, StartTaskCmd, TaskLock, ParseHex, StripSpaces, HeaderBytes, CommandFrame, IntToBytes;
    TaskHeader(id, ut, imei);
    LockFrame(serials.0, imei, 1);
    StartFrame(serials.1, imei);
    CommandHeaders(serials.0, imei);
    CommandHeaders(serials.1, imei);
  }

  /** Every planned frame was written, in order, and drew a reply of its own request that says FF. */
  ghost predicate SafelySent(id: nat, imei: nat, lockState: nat, serials: (nat, nat), written: seq<Frame>,
                             during: seq<seq<Event>>)
  {
    var headers := Headers(id, imei, lockState, serials);
    && |written| == |headers|
    && forall i | 0 <= i < |written| :: headers[i] <= written[i] && SaidFfIn(written[i], EventsOf(during, i))
  }

  /**
   * The end-to-end statement, for every task: it is marked executing only after the lock if the vehicle is
   * unlocked, the task and the start, each under its own message number, this imei and its function code, drew
   * a reply with the same three that says FF: in byte 15 for the lock and the task, in byte 14 for the start.
   */
  lemma DispatchSafety(db: Rows, table: MemoryTable, serials: (nat, nat), id: nat, written: seq<Frame>,
                       during: seq<seq<Event>>)
    ensures WholePlan(db, table, serials, id, written) && AllAnswered(written, during) ==>
              SafelySent(id, table.imei, table.lockState, serials, written, during)
  {
    hide Plan, ToFrame, AnsweredIn, SaidFfIn, HeaderBytes, IsPick;
    if WholePlan(db, table, serials, id, written) && AllAnswered(written, during) {
      PickWaits(db, table.imei, id);
      PlanHeaders(id, db.tasks[id], table.imei, table.lockState, serials);
      HeaderShape(serials.0, table.imei, 0xB3);
      HeaderShape(id, table.imei, 0xB2);
      HeaderShape(serials.1, table.imei, 0x07);
      forall i | 0 <= i < |written|
        ensures SaidFfIn(written[i], EventsOf(during, i))
      {
        assert Headers(id, table.imei, table.lockState, serials)[i][12] in {0xB3, 0xB2, 0x07};
        AnswerSaysFf(written[i], EventsOf(during, i));
      }
    }
  }

  lemma SameFunction(f: Frame, g: Frame)
    requires SameRequest(f, g)
    ensures f[12] == g[12]
  {
    assert f[12] == f[4..13][8] && g[12] == g[4..13][8];
  }
}
