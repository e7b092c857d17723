/**
 * Matching of replies to requests: app/tcp/future_manager.py and the senders and receivers
 * of app/tcp/channel_manager.py and app/tcp/tcp_client.py that use it.
 */
module FutureManager {
  import opened ByteProcess
  import opened Constants
  import opened Wrappers

  /** A frame long enough to carry message number, imei and function code; decoded frames have 16 bytes. */
  type Frame = f: Bytes | |f| >= 13 witness [0, 0, 0, 0, 0, 0, 0, 0, 0, 0, 0, 0, 0]

  // ---------- Keys ----------

  function ImeiOf(f: Frame): nat { IntOf(f[8..12]) }

  function FunOf(f: Frame): string { PrintHex(f[12..13]) }

  function MsgNo(f: Frame): string { PrintHex(f[4..8]) }

  function Key(f: Frame): string { Dec(ImeiOf(f)) + FunOf(f) + MsgNo(f) }

  /** Message number, imei and function code are bytes 4 to 13. */
  predicate SameRequest(a: Frame, b: Frame) { a[4..13] == b[4..13] }

  lemma PrintHexInjective(a: Bytes, b: Bytes)
    requires PrintHex(a) == PrintHex(b)
    ensures a == b
  {
    HexRoundTrip(a);
    HexRoundTrip(b);
  }

  lemma IntOfInjective(a: Bytes, b: Bytes)
    requires |a| == |b| == 4 && IntOf(a) == IntOf(b)
    ensures a == b
  {
    ParsedIntRoundTrip(a);
    ParsedIntRoundTrip(b);
  }

  /** The concatenated key names one imei, function code and message number. */
  lemma KeyInjective(a: Frame, b: Frame)
    ensures Key(a) == Key(b) <==> SameRequest(a, b)
  {
    hide Dec, PrintHex, IntOf;
    SplitHeader(a);
    SplitHeader(b);
    if Key(a) == Key(b) {
      SuffixEqual(Dec(ImeiOf(a)), FunOf(a) + MsgNo(a), Dec(ImeiOf(b)), FunOf(b) + MsgNo(b));
      SuffixEqual(FunOf(a), MsgNo(a), FunOf(b), MsgNo(b));
      DecInjective(ImeiOf(a), ImeiOf(b));
      IntOfInjective(a[8..12], b[8..12]);
      PrintHexInjective(a[12..13], b[12..13]);
      PrintHexInjective(a[4..8], b[4..8]);
    }
  }

  lemma SplitHeader(a: Frame)
    ensures a[4..13] == a[4..8] + a[8..12] + a[12..13]
    ensures a[4..8] == a[4..13][..4] && a[8..12] == a[4..13][4..8] && a[12..13] == a[4..13][8..]
    ensures Key(a) == Dec(ImeiOf(a)) + (FunOf(a) + MsgNo(a))
  {
  }

  // ---------- The manager ----------

  /** An asyncio future: a timeout cancels it. */
  datatype FutureState = Pending | Resolved(msg: Bytes) | TimedOut

  /** Futures are numbered in the order they are created. */
  datatype State = State(registry: map<string, nat>, made: seq<FutureState>)

  datatype Event = Request(frame: Frame) | Arrive(frame: Frame) | Timeout(future: nat)

  predicate Completes(f: Frame) {
    ImeiOf(f) != 0 && FunOf(f) != "00"
  }

  /** In bytes: neither the imei nor the function code is zero. */
  lemma CompletesIff(f: Frame)
    ensures Completes(f) <==> f[8..12] != [0, 0, 0, 0] && f[12] != 0
  {
    hide PrintHex, IntOf;
    var b, zero := f[8..12], [0, 0, 0, 0];
    ZeroImei();
    if ImeiOf(f) == 0 {
      IntOfInjective(b, zero);
    }
    assert f[12..13] == [f[12]];
    PrintHexAt([0], 0);
    assert PrintHex([0]) == "00";
    if FunOf(f) == "00" {
      PrintHexInjective(f[12..13], [0]);
    }
  }

  lemma ZeroImei()
    ensures IntOf([0, 0, 0, 0]) == 0
  {
  }

  function Step(s: State, e: Event): State {
    match e
    case Request(f) => State(s.registry[Key(f) := |s.made|], s.made + [Pending])
    case Arrive(f) =>
      if !Completes(f) || Key(f) !in s.registry then s
      else
        var id := s.registry[Key(f)];
        State(s.registry - {Key(f)},
              if id < |s.made| && s.made[id] == Pending then s.made[id := Resolved(f)] else s.made)
    case Timeout(id) =>
      if id < |s.made| && s.made[id] == Pending then s.(made := s.made[id := TimedOut]) else s
  }

  const EMPTY := State(map[], [])

  function Run(s: State, events: seq<Event>): State
    decreases |events|
  {
    if events == [] then s else Step(Run(s, events[..|events| - 1]), events[|events| - 1])
  }

  ghost predicate InRange(s: State) {
    forall k | k in s.registry :: s.registry[k] < |s.made|
  }

  class AgvChannelFutureManager {
    var futures: map<string, nat>
    var made: seq<FutureState>

    function Abs(): State
      reads this
    {
      State(futures, made)
    }

    constructor ()
      ensures Abs() == EMPTY
    {
      futures, made := map[], [];
    }

    method Create(key: string) returns (fut: nat)
      modifies this
      ensures fut == |old(made)| && made == old(made) + [Pending] && futures == old(futures)[key := fut]
    {
      fut := |made|;
      made := made + [Pending];
      futures := futures[key := fut];
    }

    method Delete(key: string) returns (fut: Option<nat>)
      modifies this
      ensures made == old(made) && futures == old(futures) - {key}
      ensures fut == if key in old(futures) then Some(old(futures)[key]) else None
    {
      fut := if key in futures then Some(futures[key]) else None;
      futures := futures - {key};
    }

    /** `send_msg_sync`: the future is registered whether or not a connection exists. */
    method SendMsgSync(f: Frame) returns (fut: nat)
      modifies this
      ensures Abs() == Step(old(Abs()), Request(f)) && fut == |old(made)|
    {
      fut := Create(Key(f));
    }

    method FutureComplete(key: string, msg: Bytes)
      modifies this
      ensures futures == old(futures) - {key}
      ensures made == if key in old(futures) && old(futures)[key] < |old(made)|
                         && old(made)[old(futures)[key]] == Pending
                      then old(made)[old(futures)[key] := Resolved(msg)] else old(made)
    {
      var fut := Delete(key);
      if fut.None? || fut.value >= |made| || made[fut.value] != Pending {
        return;
      }
      made := made[fut.value := Resolved(msg)];
    }

    method ReceiveMsg(f: Frame)
      modifies this
      ensures Abs() == Step(old(Abs()), Arrive(f))
    {
      if ImeiOf(f) != 0 && FunOf(f) != "00" {
        ghost var s := Abs();
        FutureComplete(Key(f), f);
        assert Key(f) !in s.registry ==> s.registry - {Key(f)} == s.registry;
      }
    }

    /** The deadline of `wait`. */
    method Expire(fut: nat)
      modifies this
      ensures Abs() == Step(old(Abs()), Timeout(fut))
    {
      if fut < |made| && made[fut] == Pending {
        made := made[fut := TimedOut];
      }
    }

    /**
     * `send_tcp_msg`: request, wait, result. `during` is what happens on other tasks of the event
     * loop until the deadline.
     */
    method SendTcpMsg(f: Frame, during: seq<Event>) returns (reply: Option<Bytes>)
      requires InRange(Abs())
      modifies this
      ensures InRange(Abs())
      ensures Abs() == Step(Run(old(Abs()), [Request(f)] + during), Timeout(|old(made)|))
      ensures reply == ReplyTo(f, |old(made)|, during)
      ensures reply.Some? ==>
                exists k: nat :: AnswersFirst(f, |old(made)|, during, k) && reply == Some(during[k].frame)
      ensures forall k: nat :: AnswersFirst(f, |old(made)|, during, k) ==> reply == Some(during[k].frame)
      ensures |made| == |old(made)| + 1 + Requests(during)
    {
      hide Step, Run, Watched, Fate, StillOpen, AnswersFirst, Requests;
      MadeByRun(Abs(), [Request(f)] + during);
      RequestsOfAll(f, during);
      WatchNew(Abs(), f);
      RunSnoc(Abs(), [], Request(f));
      var fut := SendMsgSync(f);
      assert [] + [Request(f)] == [Request(f)] + during[..0];
      for i := 0 to |during|
        invariant Abs() == Run(old(Abs()), [Request(f)] + during[..i])
        invariant Watched(Abs(), f, fut, StillOpen(f, fut, during[..i]), Fate(f, fut, during[..i]))
      {
        WatchStep(Abs(), f, fut, during[..i], during[i]);
        RunSnoc(old(Abs()), [Request(f)] + during[..i], during[i]);
        Deliver(during[i]);
        assert during[..i + 1] == during[..i] + [during[i]];
        assert [Request(f)] + during[..i + 1] == ([Request(f)] + during[..i]) + [during[i]];
      }
      assert during[..|during|] == during;
      WatchedMeans(Abs(), f, fut, StillOpen(f, fut, during), Fate(f, fut, during));
      var state := made[fut];
      ghost var n := |made|;
      Expire(fut);
      TimeoutMakesNone(Run(old(Abs()), [Request(f)] + during), fut);
      assert |made| == n;
      reply := if state.Resolved? then Some(state.msg) else None;
      ReplyIff(f, |old(made)|, during);
    }

    method Deliver(e: Event)
      modifies this
      ensures Abs() == Step(old(Abs()), e)
    {
      match e {
        case Request(g) => var fut := SendMsgSync(g);
        case Arrive(g) => ReceiveMsg(g);
        case Timeout(n) => Expire(n);
      }
    }
  }

  lemma RunSnoc(s: State, events: seq<Event>, e: Event)
    ensures Run(s, []) == s
    ensures Run(s, events + [e]) == Step(Run(s, events), e)
  {
    assert (events + [e])[..|events|] == events;
  }

  lemma WatchedMeans(s: State, f: Frame, id: nat, open: bool, state: FutureState)
    requires Watched(s, f, id, open, state)
    ensures id < |s.made| && s.made[id] == state
    ensures InRange(s) && InRange(Step(s, Timeout(id)))
  {
  }

  // ---------- The fate of one future, from the events after its request ----------

  /** Events that decide a request that is still registered and pending. */
  predicate Decides(e: Event, f: Frame, id: nat) {
    match e
    case Request(g) => SameRequest(f, g)
    case Arrive(g) => SameRequest(f, g) && Completes(g)
    case Timeout(n) => n == id
  }

  /** No event so far has decided it. */
  predicate StillOpen(f: Frame, id: nat, events: seq<Event>) {
    forall i | 0 <= i < |events| :: !Decides(events[i], f, id)
  }

  /** The first deciding event resolves the future if it is a reply; a later request for the same key orphans it. */
  function Fate(f: Frame, id: nat, events: seq<Event>): FutureState {
    if events == [] then Pending
    else
      var before, e := events[..|events| - 1], events[|events| - 1];
      if StillOpen(f, id, before) && e.Arrive? && Decides(e, f, id) then Resolved(e.frame)
      else if e == Timeout(id) && Fate(f, id, before) == Pending then TimedOut
      else Fate(f, id, before)
  }

  function ReplyTo(f: Frame, id: nat, events: seq<Event>): Option<Bytes> {
    var s := Fate(f, id, events);
    if s.Resolved? then Some(s.msg) else None
  }

  /** The manager's view of one future. While open it is the registered one and pending. */
  ghost predicate Watched(s: State, f: Frame, id: nat, open: bool, state: FutureState) {
    && id < |s.made| && s.made[id] == state
    && (open ==> Key(f) in s.registry && s.registry[Key(f)] == id && state == Pending)
    && (forall k | k in s.registry && s.registry[k] == id :: k == Key(f) && (open || state != Pending))
    && InRange(s)
  }

  lemma WatchRequest(s: State, f: Frame, id: nat, open: bool, state: FutureState, g: Frame)
    requires Watched(s, f, id, open, state)
    ensures Watched(Step(s, Request(g)), f, id, open && !SameRequest(f, g), state)
  {
    hide Key, SameRequest;
    KeyInjective(f, g);
  }

  lemma WatchArrive(s: State, f: Frame, id: nat, open: bool, state: FutureState, g: Frame)
    requires Watched(s, f, id, open, state)
    ensures var hit := SameRequest(f, g) && Completes(g);
            Watched(Step(s, Arrive(g)), f, id, open && !hit, if open && hit then Resolved(g) else state)
  {
    hide Key, SameRequest, Completes;
    KeyInjective(f, g);
  }

  lemma WatchTimeout(s: State, f: Frame, id: nat, open: bool, state: FutureState, n: nat)
    requires Watched(s, f, id, open, state)
    ensures Watched(Step(s, Timeout(n)), f, id, open && n != id,
                    if n == id && state == Pending then TimedOut else state)
  {
    hide Key;
  }

  lemma FateStep(f: Frame, id: nat, seen: seq<Event>, e: Event)
    ensures StillOpen(f, id, seen + [e]) <==> StillOpen(f, id, seen) && !Decides(e, f, id)
    ensures Fate(f, id, seen + [e]) ==
            if StillOpen(f, id, seen) && e.Arrive? && Decides(e, f, id) then Resolved(e.frame)
            else if e == Timeout(id) && Fate(f, id, seen) == Pending then TimedOut
            else Fate(f, id, seen)
  {
    hide Decides;
    var all := seen + [e];
    assert all[..|all| - 1] == seen;
    assert forall i | 0 <= i < |seen| :: all[i] == seen[i];
    assert all[|seen|] == e;
  }

  lemma WatchStep(s: State, f: Frame, id: nat, seen: seq<Event>, e: Event)
    requires Watched(s, f, id, StillOpen(f, id, seen), Fate(f, id, seen))
    ensures Watched(Step(s, e), f, id, StillOpen(f, id, seen + [e]), Fate(f, id, seen + [e]))
  {
    hide Watched, Step, SameRequest, Completes, StillOpen, Fate;
    FateStep(f, id, seen, e);
    var open, state := StillOpen(f, id, seen), Fate(f, id, seen);
    match e
    case Request(g) => WatchRequest(s, f, id, open, state, g);
    case Arrive(g) => WatchArrive(s, f, id, open, state, g);
    case Timeout(n) => WatchTimeout(s, f, id, open, state, n);
  }

  /** A future made by a request that is the event at position c. */
  ghost predicate MadeAt(events: seq<Event>, c: nat, id: nat) {
    c < |events| && events[c].Request? && id == |Run(EMPTY, events[..c]).made|
  }

  lemma {:induction false} RegistryInRange(events: seq<Event>)
    ensures InRange(Run(EMPTY, events))
  {
    if events != [] {
      RegistryInRange(events[..|events| - 1]);
    }
  }

  /** In every run each future ends as the events after its own request say. */
  lemma {:induction false} FateOfFuture(events: seq<Event>, c: nat, id: nat)
    requires MadeAt(events, c, id)
    ensures var f, after := events[c].frame, events[c + 1..];
            Watched(Run(EMPTY, events), f, id, StillOpen(f, id, after), Fate(f, id, after))
  {
    hide Watched, StillOpen, Fate, Step;
    var f, n := events[c].frame, |events| - 1;
    var before := events[..n];
    if c == n {
      RegistryInRange(before);
      WatchNew(Run(EMPTY, before), f);
      assert events[c + 1..] == [];
    } else {
      assert before[..c] == events[..c];
      FateOfFuture(before, c, id);
      WatchStep(Run(EMPTY, before), f, id, before[c + 1..], events[n]);
      assert before[c + 1..] + [events[n]] == events[c + 1..];
    }
  }

  lemma WatchNew(s: State, f: Frame)
    requires InRange(s)
    ensures Watched(Step(s, Request(f)), f, |s.made|, StillOpen(f, |s.made|, []), Fate(f, |s.made|, []))
  {
  }

  /** Event j is the reply that resolves the future made at c: the first deciding event after c. */
  ghost predicate ResolvedBy(events: seq<Event>, c: nat, id: nat, j: nat) {
    && MadeAt(events, c, id) && c < j < |events|
    && events[j].Arrive? && Decides(events[j], events[c].frame, id)
    && forall l | c < l < j :: !Decides(events[l], events[c].frame, id)
  }

  lemma {:induction false} FateIsFirstReply(f: Frame, id: nat, events: seq<Event>, m: Bytes)
    ensures Fate(f, id, events) == Resolved(m) <==>
            exists j: nat :: j < |events| && events[j].Arrive? && Decides(events[j], f, id)
                        && events[j].frame == m && StillOpen(f, id, events[..j])
  {
    hide Decides;
    if events != [] {
      var n := |events| - 1;
      var before := events[..n];
      FateIsFirstReply(f, id, before, m);
      forall j | 0 <= j < n
        ensures before[..j] == events[..j] && before[j] == events[j]
      {
      }
      if StillOpen(f, id, before) {
        FateOpen(f, id, before);
        forall j | 0 <= j < n
          ensures !Decides(events[j], f, id)
        {
          assert before[j] == events[j];
        }
      }
      if Fate(f, id, events) == Resolved(m) && Fate(f, id, before) != Resolved(m) {
        assert events[..n] == before;
      }
    }
  }

  lemma {:induction false} FateOpen(f: Frame, id: nat, events: seq<Event>)
    requires StillOpen(f, id, events)
    ensures Fate(f, id, events) == Pending
  {
    if events != [] {
      var before := events[..|events| - 1];
      assert forall i | 0 <= i < |before| :: before[i] == events[i];
      FateOpen(f, id, before);
    }
  }

  // ---------- The reply, in bytes ----------

  /** The event has to do with the request f: the same bytes 4 to 13, or its own timeout. */
  predicate Concerns(e: Event, f: Frame, id: nat) {
    match e
    case Request(g) => g[4..13] == f[4..13]
    case Arrive(g) => g[4..13] == f[4..13]
    case Timeout(n) => n == id
  }

  /** The first event that concerns the request is a reply, and the request has an imei and a function code. */
  ghost predicate AnswersFirst(f: Frame, id: nat, events: seq<Event>, k: nat) {
    && k < |events| && events[k].Arrive? && Concerns(events[k], f, id)
    && f[8..12] != [0, 0, 0, 0] && f[12] != 0
    && forall i | 0 <= i < k :: !Concerns(events[i], f, id)
  }

  lemma DecidesIs(e: Event, f: Frame, id: nat)
    ensures Decides(e, f, id) <==>
              Concerns(e, f, id) && (e.Arrive? ==> f[8..12] != [0, 0, 0, 0] && f[12] != 0)
  {
    hide Completes;
    if e.Arrive? && SameRequest(f, e.frame) {
      CompletesIff(e.frame);
      SplitHeader(f);
      SplitHeader(e.frame);
      assert f[12] == f[4..13][8] && e.frame[12] == e.frame[4..13][8];
    }
  }

  /** A request is answered with a frame exactly if the first event that concerns it is that frame. */
  lemma ReplyIff(f: Frame, id: nat, events: seq<Event>)
    ensures ReplyTo(f, id, events).Some? ==>
              exists k: nat :: AnswersFirst(f, id, events, k) && ReplyTo(f, id, events) == Some(events[k].frame)
    ensures forall k: nat :: AnswersFirst(f, id, events, k) ==> ReplyTo(f, id, events) == Some(events[k].frame)
  {
    hide Fate, Decides, Concerns;
    forall i | 0 <= i < |events|
      ensures Decides(events[i], f, id) <==>
                Concerns(events[i], f, id) && (events[i].Arrive? ==> f[8..12] != [0, 0, 0, 0] && f[12] != 0)
    {
      DecidesIs(events[i], f, id);
    }
    if ReplyTo(f, id, events).Some? {
      var m := ReplyTo(f, id, events).value;
      FateIsFirstReply(f, id, events, m);
      var j: nat :| j < |events| && events[j].Arrive? && Decides(events[j], f, id) && events[j].frame == m
                    && StillOpen(f, id, events[..j]);
      forall i | 0 <= i < j
        ensures !Concerns(events[i], f, id)
      {
        assert !Decides(events[..j][i], f, id);
      }
      assert AnswersFirst(f, id, events, j);
    }
    forall k: nat | AnswersFirst(f, id, events, k)
      ensures ReplyTo(f, id, events) == Some(events[k].frame)
    {
      assert forall i | 0 <= i < k :: !Decides(events[..k][i], f, id);
      FateIsFirstReply(f, id, events, events[k].frame);
    }
  }

  /** The last event of the run that registers or completes the key of f is a request. */
  predicate Awaited(events: seq<Event>, f: Frame) {
    if events == [] then false
    else
      var e := events[|events| - 1];
      if e.Request? && e.frame[4..13] == f[4..13] then true
      else if e.Arrive? && e.frame[4..13] == f[4..13] && f[8..12] != [0, 0, 0, 0] && f[12] != 0 then false
      else Awaited(events[..|events| - 1], f)
  }

  /** A key is registered exactly from a request until its reply: replies unregister it, timeouts do not. */
  lemma {:induction false} RegisteredIff(events: seq<Event>, f: Frame)
    ensures Key(f) in Run(EMPTY, events).registry <==> Awaited(events, f)
  {
    hide Key, Completes;
    if events != [] {
      var e := events[|events| - 1];
      RegisteredIff(events[..|events| - 1], f);
      if e.Request? || e.Arrive? {
        KeyInjective(e.frame, f);
        DecidesIs(Arrive(e.frame), f, 0);
      }
    }
  }

  /** How many requests other tasks made meanwhile. */
  function Requests(events: seq<Event>): nat {
    if events == [] then 0 else Requests(events[..|events| - 1]) + if events[|events| - 1].Request? then 1 else 0
  }

  lemma {:induction false} MadeByRun(s: State, events: seq<Event>)
    ensures |Run(s, events).made| == |s.made| + Requests(events)
  {
    if events != [] {
      MadeByRun(s, events[..|events| - 1]);
    }
  }

  lemma {:induction false} RequestsOfAll(f: Frame, events: seq<Event>)
    ensures Requests([Request(f)] + events) == 1 + Requests(events)
  {
    if events == [] {
      assert [Request(f)] + events == [Request(f)];
      assert [Request(f)][..0] == [];
    } else {
      var all, n := [Request(f)] + events, |events| - 1;
      assert all[..|all| - 1] == [Request(f)] + events[..n];
      RequestsOfAll(f, events[..n]);
    }
  }

  lemma TimeoutMakesNone(s: State, id: nat)
    ensures |Step(s, Timeout(id)).made| == |s.made|
  {
  }

  /**
   * A future is resolved exactly by the first event after its request that concerns it, when that
   * is a reply with its own imei, function code and message number. So a reply after the timeout,
   * or after a newer request of the same key, resolves it never.
   */
  lemma ResolvedOnlyByOwnReply(events: seq<Event>, c: nat, id: nat, m: Bytes)
    requires MadeAt(events, c, id)
    ensures id < |Run(EMPTY, events).made|
    ensures Run(EMPTY, events).made[id] == Resolved(m) <==>
            exists j: nat :: ResolvedBy(events, c, id, j) && events[j].frame == m
  {
    hide Fate, Decides;
    var f, after := events[c].frame, events[c + 1..];
    FateOfFuture(events, c, id);
    FateIsFirstReply(f, id, after, m);
    if k: nat :| k < |after| && after[k].Arrive? && Decides(after[k], f, id) && after[k].frame == m
                 && StillOpen(f, id, after[..k]) {
      FirstDecider(events, c, id, k);
      assert ResolvedBy(events, c, id, c + 1 + k);
    }
    if j: nat :| ResolvedBy(events, c, id, j) && events[j].frame == m {
      FirstDecider(events, c, id, j - c - 1);
      assert after[j - c - 1] == events[j];
    }
  }

  lemma FirstDecider(events: seq<Event>, c: nat, id: nat, k: nat)
    requires MadeAt(events, c, id) && c + 1 + k < |events|
    ensures StillOpen(events[c].frame, id, events[c + 1..][..k]) <==>
            forall l | c < l < c + 1 + k :: !Decides(events[l], events[c].frame, id)
  {
    hide Decides;
    var part := events[c + 1..][..k];
    assert forall i | 0 <= i < k :: part[i] == events[c + 1 + i];
    if StillOpen(events[c].frame, id, part) {
      forall l | c < l < c + 1 + k
        ensures !Decides(events[l], events[c].frame, id)
      {
        assert part[l - c - 1] == events[l];
      }
    }
  }

  /** One arriving frame resolves at most one future. */
  lemma OneReplyOneFuture(events: seq<Event>, c: nat, id: nat, d: nat, other: nat, j: nat)
    requires ResolvedBy(events, c, id, j) && ResolvedBy(events, d, other, j)
    ensures c == d && id == other
  {
    assert SameRequest(events[c].frame, events[d].frame);
    if c < d {
      assert Decides(events[d], events[c].frame, id);
    } else if d < c {
      assert Decides(events[c], events[d].frame, other);
    }
  }

  /** Once resolved, a future keeps its message for the rest of the run. */
  lemma {:induction false} ResolvedOnce(events: seq<Event>, n: nat, id: nat)
    requires n <= |events| && id < |Run(EMPTY, events[..n]).made| && Run(EMPTY, events[..n]).made[id] != Pending
    ensures id < |Run(EMPTY, events).made| && Run(EMPTY, events).made[id] == Run(EMPTY, events[..n]).made[id]
    decreases |events|
  {
    hide Key, Completes;
    if n < |events| {
      var before := events[..|events| - 1];
      assert before[..n] == events[..n];
      ResolvedOnce(before, n, id);
    } else {
      assert events[..n] == events;
    }
  }
}
