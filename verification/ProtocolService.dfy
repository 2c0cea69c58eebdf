/** What a client gets for its request: the frames on the device's side and the words on the client's. */
module ProtocolService {
  import opened Words
  import opened Protocol
  import opened ProtocolSafety
  import opened Tables
  import Frames

  /** The words the client receives when the device answers a request for `code`, sent on as cmd, with data. */
  function Answer(code: Word32, cmd: Word32, data: seq<Word32>): seq<Word32>
    requires cmd in Handlers()
  {
    var payload := if data == [] then [0] else data;
    if |payload| == Handlers()[cmd] then [code] + payload else [993]
  }

  /** The request is done with: answered with these words, and the device side is free again. */
  ghost predicate Served(w: World, v: World, words: seq<Word32>)
    requires w.client.pending.Some?
  {
    && v.replies == w.replies + [Reply(w.client.pending.value, words)] && v.requests == w.requests
    && v.client.id == w.client.id && v.client.pending == None && Idle(v)
  }

  lemma AnswerServes(w: World, log: Log, cmd: Word32, data: seq<Word32>)
    requires Polling(w) && InFlight(w) && w.link == Reading && Clean(log) && cmd in Handlers()
    ensures var code := w.requests[w.client.pending.value].code;
      var r := ProcessRecv(w.(link := Quiet, log := log), cmd, if data == [] then [0] else data);
      r.1 == Nothing && Served(w, r.0, Answer(code, cmd, data)) && Polling(r.0)
  {
    hide Handlers, RepliesInOrder, Clean;
    FrameSafe(w, log, cmd, if data == [] then [0] else data);
    assert [INVALID_COMMAND_DATA] + [] == [INVALID_COMMAND_DATA];
  }

  /** A reply frame that arrives while a command is in flight reaches the client as its own code and the payload,
      or as an error if the payload has not the size that replies with this command have. */
  lemma Delivered(w: World, cmd: Word32, data: seq<Word32>, rest: seq<Byte>, again: Reconnection)
    requires cmd in Handlers() && |data| <= 252 && |rest| % 4 == 0
    requires Inv(w) && InFlight(w) && w.link == Reading && w.phase == DeviceTurn
    ensures var code := w.requests[w.client.pending.value].code;
      && cmd < Frames.REPLY_BIT
      && var frame := Frames.Frame(cmd + Frames.REPLY_BIT, data) + rest;
        var v := Step(w, DevicePoll([Received(false, frame)], again));
        && Served(w, v, Answer(code, cmd, data))
        && v.log == w.log.(fromDevice := w.log.fromDevice + [Heard(w.client.pending, frame)])
  {
    hide Handlers, RepliesInOrder, Frames.Frame, Frames.Parse, Frames.Harmful, ProcessRecv, Answer, Clean;
    TablesAgree();
    Frames.ReplyRoundTrip(cmd, data, rest);
    var frame := Frames.Frame(cmd + Frames.REPLY_BIT, data) + rest;
    Frames.HarmfulExact(frame);
    CleanHeard(w.log, Heard(w.client.pending, frame));
    AnswerServes(w, Hear(w, frame).log, cmd, data);
    OneEvent(w, Received(false, frame));
  }

  /** The frame of the queued command fits the command buffer unless it is a pixel configuration of 253 words
      or more. */
  lemma SendFits(w: World)
    requires Inv(w) && Waiting(w) && w.phase == DeviceTurn
    ensures var v, c := SendCommand(w), w.queue[0];
      && (v.fault <==> c.code == CMD_SET_PIXCONF && |c.data| >= 253)
      && v.log.toDevice == w.log.toDevice + [Frames.Frame(c.code, c.data)]
  {
    hide Handlers, RepliesInOrder, Clean;
  }

  /** A module reset is answered at once with its own code, whether or not the device comes back. */
  lemma ResetServed(w: World, es: seq<DeviceEvent>, again: Reconnection)
    requires Inv(w) && Waiting(w) && w.phase == DeviceTurn && w.queue[0].code == CMD_RESET_MODULE
    ensures var v := Step(w, DevicePoll(es, again));
      && v.replies == w.replies + [Reply(w.client.pending.value, [w.requests[w.client.pending.value].code])]
      && v.client.pending == None && v.queue == [] && v.lastSource == None
      && (v.connected <==> !again.Unreachable?) && (v.executing <==> again.Unreachable?)
      && (v.cancelled <==> w.cancelled || !again.Established?)
      && v.link == (if again.Unreachable? then Down else Quiet) && v.phase == ClientTurn
      && v.log == w.log.(toDevice := w.log.toDevice + [Frames.Frame(CMD_RESET_MODULE, w.queue[0].data)])
  {
    hide Handlers, RepliesInOrder, Clean, Frames.Frame;
    SendFits(w);
    assert [w.client.lastCommand] + [] == [w.client.lastCommand];
  }

  /** A device that is connected and free, and a client whose turn it is. */
  ghost predicate Ready(w: World) {
    Inv(w) && Idle(w) && w.connected && !w.cancelled && w.phase == ClientTurn && w.client.pending.None?
  }

  /** A request for the device, if its size is right: what is queued for it. */
  function Requested(m: Message): Option<(Word32, seq<Word32>)> {
    if m.ragged then None
    else if m.code == SET_PIXEL_CONFIG then if PixelRemainder(|m.data|) == 0 then Some((CMD_SET_PIXCONF, m.data)) else None
    else if m.code in Forwards() && |m.data| == Forwards()[m.code].0 then Some((Forwards()[m.code].1, m.data))
    else None
  }

  /** A well-formed request for the device is queued, and the next turn begins. */
  lemma Queued(w: World, m: Message, f: Forwarding)
    requires Ready(w) && Requested(m).Some?
    ensures var u := Step(Step(w, ClientPoll(Some(m), f)), LoopTop);
      && u == w.(client := w.client.(pending := Some(|w.requests|), lastCommand := m.code), phase := DeviceTurn,
                 requests := w.requests + [Request(w.client.id, m.code)],
                 queue := [Command(Requested(m).value.0, m.data, w.client.id)])
      && Inv(u) && Waiting(u)
  {
    hide Handlers, Forwards, RepliesInOrder, SendError, SendResponse, Forward, PixelRemainder, Clean;
    TablesAgree();
    var v := Step(w, ClientPoll(Some(m), NotStarted));
    assert v == Step(w, ClientPoll(Some(m), f));
    StepSafe(w, ClientPoll(Some(m), NotStarted));
    StepSafe(v, LoopTop);
  }

  /** The command is sent, and one more thing happens in the same poll. */
  lemma SentFirst(w: World, e: DeviceEvent, again: Reconnection)
    requires Inv(w) && Waiting(w) && w.phase == DeviceTurn && w.queue[0].code != CMD_RESET_MODULE
    requires !SendCommand(w).fault
    ensures var v := SendCommand(w).(link := Reading);
      && Step(w, DevicePoll([Sent, e], again)) == Step(v, DevicePoll([e], again))
      && Inv(v) && InFlight(v)
  {
    hide Handlers, RepliesInOrder, AfterHandlers, Clean, Frames.Frame;
    SendSafe(w);
    var u := SendCommand(w);
    EventSafe(u, Sent);
    assert [Sent, e][1..] == [e];
  }

  /** A request for the device, from its arrival to its answer, all in the next poll: when the device is
      connected and free, the command's frame is sent, and its reply frame arrives, the client gets its own code
      and the device's data. */
  lemma RequestServedAtOnce(w: World, m: Message, f: Forwarding, data: seq<Word32>, rest: seq<Byte>, again: Reconnection)
    requires Ready(w) && Requested(m).Some? && Requested(m).value.0 != CMD_RESET_MODULE
    requires |m.data| <= 252 && |data| <= 252 && |rest| % 4 == 0
    ensures var cmd := Requested(m).value.0;
      && cmd in Handlers() && cmd < Frames.REPLY_BIT
      && var u := Step(Step(w, ClientPoll(Some(m), f)), LoopTop);
        var v := Step(u, DevicePoll([Sent, Received(false, Frames.Frame(cmd + Frames.REPLY_BIT, data) + rest)], again));
        && u.requests == w.requests + [Request(w.client.id, m.code)] && u.replies == w.replies
        && u.client.pending == Some(|w.requests|) && Served(u, v, Answer(m.code, cmd, data))
        && v.log.toDevice == w.log.toDevice + [Frames.Frame(cmd, m.data)]
  {
    hide Handlers, Forwards, RepliesInOrder, Frames.Frame, Inv, Step, Answer, Requested;
    TablesAgree();
    var cmd := Requested(m).value.0;
    Queued(w, m, f);
    var u := Step(Step(w, ClientPoll(Some(m), f)), LoopTop);
    SendFits(u);
    SentFirst(u, Received(false, Frames.Frame(cmd + Frames.REPLY_BIT, data) + rest), again);
    Delivered(SendCommand(u).(link := Reading), cmd, data, rest, again);
  }

  // ----- over any schedule -----

  predicate Without(d: DeviceEvent, sent: bool) { if sent then !d.Sent? else !d.Received? }

  /** No stop, and in no poll of the device does the send complete (or, if not sent, anything arrive). */
  predicate Idling(es: seq<Event>, sent: bool) {
    forall e | e in es :: !e.Stop? && (e.DevicePoll? ==> forall d | d in e.es :: Without(d, sent))
  }

  /** Completions of other operations are no events. */
  lemma {:induction false} NoEvents(w: World, ds: seq<DeviceEvent>)
    requires forall d | d in ds ::
      (d.Connected? ==> w.link != Connecting) && (d.Sent? ==> w.link != Sending) && (d.Received? ==> w.link != Reading)
    ensures RunHandlers(w, ds) == (w, Nothing)
    decreases |ds|
  {
    hide CommandRecv;
    if ds != [] && !w.fault { NoEvents(w, ds[1..]); }
  }

  lemma {:induction false} HandlersConcat(w: World, a: seq<DeviceEvent>, b: seq<DeviceEvent>)
    requires RunHandlers(w, a).1 == Nothing
    ensures RunHandlers(w, a + b) == RunHandlers(RunHandlers(w, a).0, b)
    decreases |a|
  {
    hide OnEvent;
    if a == [] {
      assert a + b == b;
    } else if !w.fault {
      assert (a + b)[0] == a[0] && (a + b)[1..] == a[1..] + b;
      HandlersConcat(OnEvent(w, a[0]).0, a[1..], b);
    }
  }

  /** A waiting command that fits the buffer. */
  ghost predicate Sendable(u: World) {
    Inv(u) && Waiting(u) && u.phase == DeviceTurn && !u.cancelled && u.queue[0].code != CMD_RESET_MODULE && !SendCommand(u).fault
  }

  /** A command in flight in a loop that nobody stopped. */
  ghost predicate Under(w: World) {
    && !w.fault && w.executing && w.connected && !w.cancelled && !w.shouldReset && w.link != Connecting
    && w.phase != Stopped
  }

  lemma UnderStep(w: World, e: Event)
    requires Under(w) && !e.Stop?
    requires e.DevicePoll? ==> RunHandlers(w, e.es) == (w, Nothing)
    ensures var v := Step(w, e); v == w.(phase := v.phase) && Under(v)
  {
    hide RunHandlers, SendCommand;
  }

  lemma SentUnder(u: World)
    requires Sendable(u)
    ensures u.queue != [] && Under(SendCommand(u)) && SendCommand(u).link == Sending && SendCommand(u).phase == DeviceTurn
  {
    hide Handlers, RepliesInOrder, Clean, Frames.Frame;
  }

  lemma FirstPoll(u: World, ds: seq<DeviceEvent>, again: Reconnection)
    requires Sendable(u)
    ensures Step(u, DevicePoll(ds, again)) == AfterHandlers(RunHandlers(SendCommand(u), ds))
  {
    hide Handlers, RepliesInOrder, Clean, Frames.Frame, RunHandlers, AfterHandlers, ResetModule, SendCommand;
  }

  lemma LaterPoll(w: World, ds: seq<DeviceEvent>, again: Reconnection)
    requires !w.fault && w.executing && w.phase == DeviceTurn
    ensures Step(w, DevicePoll(ds, again)) == AfterHandlers(RunHandlers(w, ds))
  {
    hide RunHandlers, AfterHandlers, ResetModule, SendCommand;
  }

  /** Until the send completes the command waits or is being sent, and nothing else happens. */
  lemma {:induction false} UntilSent(u: World, es: seq<Event>)
    requires Sendable(u) && Idling(es, true)
    ensures var v := Steps(u, es); v == u || v == SendCommand(u).(phase := v.phase)
    ensures Steps(u, es).phase != Stopped
  {
    hide Handlers, RepliesInOrder, Clean, Frames.Frame, SendCommand, Inv, RunHandlers, Step;
    if es == [] {
    } else {
      var fs, e := es[..|es| - 1], es[|es| - 1];
      UntilSent(u, fs);
      SentUnder(u);
      var v, sent := Steps(u, fs), SendCommand(u);
      if e.DevicePoll? { NoEvents(v, e.es); NoEvents(sent, e.es); }
      if v == u {
        WaitStep(u, e);
      } else {
        UnderStep(v, e);
      }
    }
  }

  lemma WaitStep(u: World, e: Event)
    requires Sendable(u) && !e.Stop? && (e.DevicePoll? ==> RunHandlers(SendCommand(u), e.es) == (SendCommand(u), Nothing))
    ensures var v := Step(u, e); v.phase != Stopped && (v == u || v == SendCommand(u).(phase := v.phase))
  {
    hide Handlers, RepliesInOrder, Clean, Frames.Frame, SendCommand, RunHandlers;
    if e.DevicePoll? { FirstPoll(u, e.es, e.again); }
  }

  /** The poll in which the send completes. */
  lemma SendCompletes(u: World, es: seq<Event>, x: seq<DeviceEvent>, y: seq<DeviceEvent>, again: Reconnection)
    requires Sendable(u) && Idling(es, true) && Steps(u, es).phase == DeviceTurn
    requires (forall d | d in x :: Without(d, true)) && forall d | d in y :: Without(d, false)
    ensures Step(Steps(u, es), DevicePoll(x + [Sent] + y, again)) == SendCommand(u).(link := Reading, phase := ClientTurn)
  {
    hide Handlers, RepliesInOrder, Clean, Frames.Frame, SendCommand, Inv, RunHandlers, Step, Idling, Sendable;
    UntilSent(u, es);
    SentUnder(u);
    var w, sent := Steps(u, es), SendCommand(u);
    var reading := sent.(link := Reading);
    NoEvents(sent, x);
    OneEvent(sent, Sent);
    HandlersConcat(sent, x, [Sent]);
    HandlersConcat(sent, x + [Sent], y);
    NoEvents(reading, y);
    assert RunHandlers(sent, x + [Sent] + y) == (reading, Nothing);
    if w == u {
      FirstPoll(u, x + [Sent] + y, again);
    } else {
      assert w == sent;
      LaterPoll(w, x + [Sent] + y, again);
    }
  }

  /** Until the reply arrives nothing happens. */
  lemma {:induction false} UntilReply(w: World, es: seq<Event>)
    requires Under(w) && w.link == Reading && Idling(es, false)
    ensures var v := Steps(w, es); v == w.(phase := v.phase) && Under(v)
  {
    hide Step, RunHandlers, Under;
    if es == [] {
      assert w == w.(phase := w.phase);
    } else {
      var fs, e := es[..|es| - 1], es[|es| - 1];
      UntilReply(w, fs);
      UnderLink(w);
      var v := Steps(w, fs);
      if e.DevicePoll? { NoEvents(v, e.es); }
      UnderStep(v, e);
      assert Steps(w, es) == Step(v, e);
    }
  }

  lemma UnderLink(w: World)
    requires Under(w)
    ensures w.link != Connecting
  {
  }

  /** The poll in which the reply arrives; what else is ready has no effect. */
  lemma ReplyArrives(w: World, data: seq<Word32>, rest: seq<Byte>, z: seq<DeviceEvent>, q: seq<DeviceEvent>, again: Reconnection)
    requires Inv(w) && InFlight(w) && w.link == Reading && w.phase == DeviceTurn && |data| <= 252
    requires |rest| % 4 == 0 && forall d | d in z :: Without(d, false)
    ensures var code, cmd := w.requests[w.client.pending.value].code, w.queue[0].code;
      && cmd in Handlers() && cmd < Frames.REPLY_BIT
      && var frame := Frames.Frame(cmd + Frames.REPLY_BIT, data) + rest;
        var v := Step(w, DevicePoll(z + [Received(false, frame)] + q, again));
        Served(w, v, Answer(code, cmd, data)) && v.log.toDevice == w.log.toDevice
  {
    hide Handlers, RepliesInOrder, Frames.Frame, Answer, Clean, OnEvent, RunHandlers;
    var cmd := w.queue[0].code;
    Delivered(w, cmd, data, rest, again);
    var r := Received(false, Frames.Frame(cmd + Frames.REPLY_BIT, data) + rest);
    NoEvents(w, z);
    OneEvent(w, r);
    HandlersConcat(w, z, [r]);
    ReplyQuiet(w, data, rest);
    HandlersConcat(w, z + [r], q);
    NoEvents(OnEvent(w, r).0, q);
  }

  lemma ReplyQuiet(w: World, data: seq<Word32>, rest: seq<Byte>)
    requires |rest| % 4 == 0
    requires Inv(w) && InFlight(w) && w.link == Reading && w.phase == DeviceTurn && |data| <= 252
    requires w.queue[0].code < Frames.REPLY_BIT
    ensures var r := OnEvent(w, Received(false, Frames.Frame(w.queue[0].code + Frames.REPLY_BIT, data) + rest));
      r.1 == Nothing && r.0.link == Quiet
  {
    hide Handlers, RepliesInOrder, Frames.Frame, Frames.Parse, ProcessRecv, Clean, Frames.Harmful;
    var cmd := w.queue[0].code;
    TablesAgree();
    Frames.ReplyRoundTrip(cmd, data, rest);
    var frame := Frames.Frame(cmd + Frames.REPLY_BIT, data) + rest;
    Frames.HarmfulExact(frame);
    CleanHeard(w.log, Heard(w.client.pending, frame));
    FrameSafe(w, Hear(w, frame).log, cmd, if data == [] then [0] else data);
    ProcessLink(Hear(w, frame).(link := Quiet), cmd, if data == [] then [0] else data);
  }

  lemma ProcessLink(w: World, code: Word32, data: seq<Word32>)
    ensures ProcessRecv(w, code, data).0.link == w.link
  {
    hide AnswerClient;
  }

  /** A request for the device, from its arrival to its answer, over any run without a stop in which the send
      completes in some poll and the reply frame arrives in some later one. */
  lemma RequestServed(w: World, m: Message, f: Forwarding, data: seq<Word32>, rest: seq<Byte>, before: seq<Event>,
                      x: seq<DeviceEvent>, y: seq<DeviceEvent>, between: seq<Event>, z: seq<DeviceEvent>,
                      q: seq<DeviceEvent>, again: Reconnection)
    requires Ready(w) && Requested(m).Some? && Requested(m).value.0 != CMD_RESET_MODULE
    requires |m.data| <= 252 && |data| <= 252 && |rest| % 4 == 0
    requires Idling(before, true) && Idling(between, false)
    requires (forall d | d in x :: Without(d, true)) && forall d | d in y + z :: Without(d, false)
    requires var u := Step(Step(w, ClientPoll(Some(m), f)), LoopTop);
      var v := Steps(u, before);
      && v.phase == DeviceTurn
      && Steps(Step(v, DevicePoll(x + [Sent] + y, again)), between).phase == DeviceTurn
    ensures var cmd := Requested(m).value.0;
      && cmd in Handlers() && cmd < Frames.REPLY_BIT
      && var u := Step(Step(w, ClientPoll(Some(m), f)), LoopTop);
        var v := Steps(Step(Steps(u, before), DevicePoll(x + [Sent] + y, again)), between);
        var frame := Frames.Frame(cmd + Frames.REPLY_BIT, data) + rest;
        var r := Step(v, DevicePoll(z + [Received(false, frame)] + q, again));
        && u.requests == w.requests + [Request(w.client.id, m.code)] && u.replies == w.replies
        && u.client.pending == Some(|w.requests|) && Served(u, r, Answer(m.code, cmd, data))
        && r.log.toDevice == w.log.toDevice + [Frames.Frame(cmd, m.data)]
  {
    hide Handlers, Forwards, RepliesInOrder, Frames.Frame, Inv, Step, Steps, Answer, Requested, Idling, Clean, SendCommand;
    Queued(w, m, f);
    var u := Step(Step(w, ClientPoll(Some(m), f)), LoopTop);
    SendFits(u);
    SendCompletes(u, before, x, y, again);
    SentUnder(u);
    var s := SendCommand(u).(link := Reading, phase := ClientTurn);
    UntilReply(s, between);
    var v := Steps(s, between);
    SentOwn(u, v);
    assert forall d | d in z :: d in y + z;
    ReplyArrives(v, data, rest, z, q, again);
  }

  /** The world in which the reply arrives still has the request of the one in which it was queued. */
  lemma SentOwn(u: World, v: World)
    requires Sendable(u) && v == SendCommand(u).(link := Reading, phase := DeviceTurn)
    ensures Inv(v) && InFlight(v) && v.link == Reading
    ensures v.requests == u.requests && v.replies == u.replies && v.client == u.client && v.queue == u.queue
  {
    hide Handlers, RepliesInOrder, Clean, Frames.Frame;
    SendSafe(u);
    SameReplies(SendCommand(u), v);
  }

  // ----- requests that do not fit -----

  lemma PixelSizes(n: nat)
    requires n < TWO_64
    ensures PixelRemainder(n) == 0 <==> n % 48 == 1
  {
  }

  /** A pixel configuration of 1 + 48 k words is accepted and sent whatever its size, and the next poll of the
      device does something undefined if and only if it has 253 words or more. */
  lemma PixelConfigSent(w: World, data: seq<Word32>, f: Forwarding, es: seq<DeviceEvent>, again: Reconnection)
    requires Ready(w) && |data| % 48 == 1 && |data| < TWO_64 && forall d | d in es :: ModerateDevice(d)
    ensures var u := Step(Step(w, ClientPoll(Some(Message(SET_PIXEL_CONFIG, data, false)), f)), LoopTop);
      var v := Step(u, DevicePoll(es, again));
      && u.queue == [Command(CMD_SET_PIXCONF, data, w.client.id)]
      && Frames.Frame(CMD_SET_PIXCONF, data) in v.log.toDevice
      && (v.fault <==> |data| >= 253)
  {
    hide Handlers, RepliesInOrder, Frames.Frame, Inv, Step, Waiting, ModerateDevice, Clean;
    PixelSizes(|data|);
    var m := Message(SET_PIXEL_CONFIG, data, false);
    Queued(w, m, f);
    var u := Step(Step(w, ClientPoll(Some(m), f)), LoopTop);
    SendFits(u);
    PollAfterSend(u, es, again);
    var sent := SendCommand(u).log.toDevice;
    assert sent[|sent| - 1] == Frames.Frame(CMD_SET_PIXCONF, data);
    assert Step(u, DevicePoll(es, again)).log.toDevice[|sent| - 1] == sent[|sent| - 1];
  }

  lemma PollAfterSend(w: World, es: seq<DeviceEvent>, again: Reconnection)
    requires Inv(w) && Waiting(w) && w.phase == DeviceTurn && forall d | d in es :: ModerateDevice(d)
    ensures var v := Step(w, DevicePoll(es, again));
      && (v.fault <==> SendCommand(w).fault)
      && Grows(SendCommand(w).log, v.log)
  {
    hide Handlers, RepliesInOrder, Frames.Frame, ModerateDevice, RunHandlers, AfterHandlers, ResetModule;
    SendFits(w);
    StepSafe(w, DevicePoll(es, again));
    if !SendCommand(w).fault {
      assert Modest(w);
      PollDeviceModest(w, es, again);
    }
  }

  /** The smallest such request: six blocks, 289 words. */
  lemma SixBlocks(w: World, f: Forwarding, again: Reconnection)
    requires Ready(w)
    ensures var m := Message(SET_PIXEL_CONFIG, seq(289, i => 0), false);
      Step(Step(Step(w, ClientPoll(Some(m), f)), LoopTop), DevicePoll([], again)).fault
  {
    PixelConfigSent(w, seq(289, i => 0), f, [], again);
    hide Ready, Step;
  }

  // ----- a refused frame -----

  lemma {:induction false} StalledHandlers(w: World, es: seq<DeviceEvent>)
    requires w.link == Stalled
    ensures RunHandlers(w, es) == (w, Nothing)
    decreases |es|
  {
    if es != [] && !w.fault { StalledHandlers(w, es[1..]); }
  }

  lemma StalledStep(w: World, e: Event)
    requires Inv(w) && InFlight(w) && w.link == Stalled && !w.cancelled && !e.Stop?
    ensures var v := Step(w, e); v == w.(phase := v.phase) && Inv(v) && InFlight(v)
  {
    hide Handlers, Clean, RepliesInOrder, RunHandlers;
    if e.DevicePoll? { StalledHandlers(w, e.es); }
    SameReplies(w, Step(w, e));
  }

  /** After a refused frame nothing is read from the device any more and the client is not polled: until a stop
      nothing changes but the phase of the loop, so the request stays open and no other is received. */
  lemma {:induction false} StalledStays(w: World, es: seq<Event>)
    requires Inv(w) && InFlight(w) && w.link == Stalled && !w.cancelled && forall e | e in es :: !e.Stop?
    ensures var v := Steps(w, es); v == w.(phase := v.phase) && Inv(v) && InFlight(v)
  {
    hide Handlers, Clean, RepliesInOrder, Step;
    if es == [] {
      assert w == w.(phase := w.phase);
    } else {
      var u := Steps(w, es[..|es| - 1]);
      StalledStays(w, es[..|es| - 1]);
      StalledStep(u, es[|es| - 1]);
      assert Steps(w, es) == Step(u, es[|es| - 1]);
    }
  }

  /** A stop ends it, and any other wait for the device: at the next turn the request is answered with an error. */
  lemma StalledStops(w: World)
    requires Inv(w) && InFlight(w) && w.phase == Top
    ensures var v := Step(Step(w, Stop), LoopTop);
      v.phase == Stopped && v.replies == w.replies + [Reply(w.client.pending.value, [998])]
  {
    hide Handlers, Clean, RepliesInOrder;
    assert [ERROR_OCCURED] + [] == [ERROR_OCCURED];
  }

  lemma OneEvent(w: World, e: DeviceEvent)
    requires !w.fault
    ensures RunHandlers(w, [e]) == OnEvent(w, e)
  {
    hide OnEvent;
    var r := OnEvent(w, e);
    assert [e][1..] == [];
    assert r.1 == Nothing ==> RunHandlers(r.0, []) == r;
  }

  // ----- such states are reached -----

  /** The server becomes ready in the first turn in which the connection succeeds. */
  lemma ReadyReached(again: Reconnection)
    ensures Ready(Run(true, [LoopTop, DevicePoll([Connected(true)], again)]))
  {
    hide Handlers;
    var es := [LoopTop, DevicePoll([Connected(true)], again)];
    assert es[..1] == [LoopTop] && es[..1][..0] == [];
    var w := Start(true);
    assert Steps(w, []) == w && Steps(w, es[..1]) == Step(w, LoopTop);
    OneEvent(Step(w, LoopTop), Connected(true));
    StartSafe(true);
    StepSafe(w, LoopTop);
    StepSafe(Step(w, LoopTop), es[1]);
  }
}
