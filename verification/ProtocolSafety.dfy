/** What holds after every run of the command protocol. */
module ProtocolSafety {
  import opened Words
  import opened Protocol
  import opened Tables
  import Frames

  // ----- the four situations of the device side -----

  ghost predicate OwnRequest(w: World) {
    && w.client.pending.Some? && !w.client.closed && w.client.pending.value < |w.requests|
    && w.client.lastCommand == w.requests[w.client.pending.value].code
    && |w.queue| == 1 && w.queue[0].sender == w.client.id && w.queue[0].code in Handlers()
    && (w.queue[0].code == CMD_SET_PIXCONF || |w.queue[0].data| <= 5)
  }

  /** Nothing queued, nothing under way. */
  ghost predicate Idle(w: World) {
    && !w.executing && w.lastSource == None && w.queue == []
    && (w.connected <==> w.link == Quiet) && (w.link == Quiet || w.link == Connecting)
  }

  /** The client's request waits for the next poll of the device. */
  ghost predicate Waiting(w: World) {
    && !w.executing && w.lastSource == None && w.connected && w.link == Quiet && OwnRequest(w) && w.phase != ClientTurn
  }

  /** The client's request was sent to the device. */
  ghost predicate InFlight(w: World) {
    && w.executing && w.lastSource == Some(w.client.id) && w.connected && OwnRequest(w)
    && (w.link == Sending || w.link == Reading || w.link == Stalled)
  }

  /** The connection is gone and the loop is about to end. */
  ghost predicate Dead(w: World) {
    && w.link == Down && !w.connected && w.lastSource == None && w.cancelled && |w.queue| <= 1
    && (!w.executing ==> w.queue == []) && (w.executing ==> w.client.pending.None?)
  }

  ghost predicate Ended(w: World) {
    && w.phase == Stopped && w.link == Down && !w.connected && w.lastSource == None && |w.queue| <= 1
    && (w.client.pending.Some? && w.queue != [] ==> !w.executing)
  }

  /** Replies belong to accepted requests, no request has two, the unanswered one has none,
      and the first word is the request's own code or an error code. */
  ghost predicate RepliesInOrder(w: World) {
    && (forall i | 0 <= i < |w.replies| ::
          var r := w.replies[i];
          && r.request < |w.requests| && r.words != []
          && (r.words[0] == w.requests[r.request].code || IsErrorCode(r.words[0])))
    && (forall i, j | 0 <= i < j < |w.replies| :: w.replies[i].request != w.replies[j].request)
    && (w.client.pending.Some? ==>
          && w.client.pending.value < |w.requests|
          && forall i | 0 <= i < |w.replies| :: w.replies[i].request != w.client.pending.value)
  }

  /** Every frame sent fits the command buffer, and none received leads outside a buffer or table. */
  ghost predicate Clean(log: Log) {
    && (forall f | f in log.toDevice :: |f| <= Frames.TPX_BUFFER)
    && (forall h | h in log.fromDevice :: !Frames.Harmful(h.bytes))
  }

  lemma CleanSent(log: Log, f: seq<Byte>)
    ensures Clean(log.(toDevice := log.toDevice + [f])) <==> Clean(log) && |f| <= Frames.TPX_BUFFER
  {
    hide Frames.Harmful;
    var l := log.(toDevice := log.toDevice + [f]);
    assert f in l.toDevice && forall g | g in log.toDevice :: g in l.toDevice;
  }

  lemma CleanHeard(log: Log, h: Heard)
    ensures Clean(log.(fromDevice := log.fromDevice + [h])) <==> Clean(log) && !Frames.Harmful(h.bytes)
  {
    hide Frames.Harmful;
    var l := log.(fromDevice := log.fromDevice + [h]);
    assert h in l.fromDevice && forall g | g in log.fromDevice :: g in l.fromDevice;
  }

  lemma CleanForwarded(log: Log, f: Forwarded)
    ensures Clean(log.(forwarded := log.forwarded + [f])) <==> Clean(log)
  {
    hide Frames.Harmful;
  }

  ghost predicate Inv(w: World) {
    && !w.fault && RepliesInOrder(w) && Clean(w.log)
    && (w.shouldReset <==> w.client.closed)
    && (w.phase == DeviceTurn || w.phase == ClientTurn ==> !w.client.closed)
    && (w.client.closed ==> !w.executing)
    && (w.phase == Stopped <==> Ended(w))
    && (w.phase != Stopped ==> Idle(w) || Waiting(w) || InFlight(w) || Dead(w))
  }

  /** The invariant of every run: nothing undefined has been done, or a frame in the log is the cause. */
  ghost predicate Sound(w: World) { if w.fault then !Clean(w.log) else Inv(w) }

  /** A secondary thread refuses with error codes only. */
  predicate Proper(e: Event) {
    e.ClientPoll? && e.f.RefusedWith? ==> IsErrorCode(e.f.code)
  }

  // ----- replies -----

  lemma SameReplies(w: World, v: World)
    requires RepliesInOrder(w) && v.client == w.client && v.requests == w.requests && v.replies == w.replies
    ensures RepliesInOrder(v)
  {
  }

  /** What a send leaves alone. */
  ghost predicate OnlyReplied(w: World, v: World) {
    v == w.(client := v.client, replies := v.replies) && v.client.id == w.client.id
    && v.client.closed == w.client.closed && v.client.pending == None
  }

  /** One more reply, to the open request. */
  lemma ReplyInOrder(w: World, v: World, words: seq<Word32>)
    requires RepliesInOrder(w) && w.client.pending.Some? && words != []
    requires words[0] == w.requests[w.client.pending.value].code || IsErrorCode(words[0])
    requires v.replies == w.replies + [Reply(w.client.pending.value, words)]
    requires v.requests == w.requests && v.client.pending == None
    ensures RepliesInOrder(v)
  {
    hide IsErrorCode;
    assert v.replies[|w.replies|] == Reply(w.client.pending.value, words);
    assert forall i | 0 <= i < |w.replies| :: v.replies[i] == w.replies[i];
  }

  lemma ReplySent(w: World, to: nat, data: seq<Word32>)
    requires RepliesInOrder(w) && to == w.client.id && !w.client.closed && w.client.pending.Some?
    requires w.client.lastCommand == w.requests[w.client.pending.value].code || IsErrorCode(w.client.lastCommand)
    ensures var v := SendResponse(w, to, data); RepliesInOrder(v) && OnlyReplied(w, v)
  {
    ReplyInOrder(w, SendResponse(w, to, data), [w.client.lastCommand] + data);
    hide RepliesInOrder, IsErrorCode;
  }

  lemma ErrorSent(w: World, to: nat, code: Word32)
    requires RepliesInOrder(w) && to == w.client.id && !w.client.closed && w.client.pending.Some? && IsErrorCode(code)
    ensures var v := SendError(w, to, code); RepliesInOrder(v) && OnlyReplied(w, v)
  {
    hide SendResponse;
    ReplySent(w.(client := w.client.(lastCommand := code)), to, []);
  }

  lemma WordsPassedOn(w: World, words: seq<Word32>)
    requires RepliesInOrder(w) && !w.client.closed && w.client.pending.Some? && words != []
    requires words[0] == w.requests[w.client.pending.value].code || IsErrorCode(words[0])
    ensures var v := PassOn(w, words); RepliesInOrder(v) && OnlyReplied(w, v)
  {
    ReplyInOrder(w, PassOn(w, words), words);
    hide RepliesInOrder, IsErrorCode;
  }

  // ----- one device event, any number of them, one poll -----

  ghost predicate Polling(w: World) { Inv(w) && w.phase == DeviceTurn && !Waiting(w) }

  lemma FrameSafe(w: World, log: Log, code: Word32, data: seq<Word32>)
    requires Polling(w) && w.link == Reading && Clean(log)
    ensures var r := ProcessRecv(w.(link := Quiet, log := log), code, data);
      Polling(r.0) && Idle(r.0) && r.1 == Nothing
  {
    hide Handlers, RepliesInOrder, SendResponse, SendError, Clean;
    var v := w.(link := Quiet, log := log);
    SameReplies(w, v);
    if code in Handlers() {
      ErrorSent(v, w.client.id, INVALID_COMMAND_DATA);
      ReplySent(v, w.client.id, data);
    }
    SameReplies(AnswerClient(v, w.client.id, code, data), ProcessRecv(v, code, data).0);
  }

  /** What a completion handler leaves behind. */
  ghost predicate Completed(r: (World, Thrown)) {
    if r.0.fault then !Clean(r.0.log)
    else Polling(r.0) && r.1 != OtherError && (r.1 == SystemError ==> !Dead(r.0))
  }

  lemma ReceiveSafe(w: World, bytes: seq<Byte>)
    requires Polling(w) && w.link == Reading
    ensures Completed(CommandRecv(w, false, bytes))
  {
    hide Handlers, Frames.Parse, Frames.Harmful, ProcessRecv, RepliesInOrder, Clean;
    Frames.HarmfulExact(bytes);
    var v := Hear(w, bytes);
    CleanHeard(w.log, Heard(w.client.pending, bytes));
    SameReplies(w, v.(link := Stalled));
    match Frames.Parse(bytes) {
      case Refused =>
      case OutOfBounds =>
      case Command(code, data) => FrameSafe(w, v.log, code, data);
    }
  }

  lemma EventSafe(w: World, e: DeviceEvent)
    requires Polling(w)
    ensures Completed(OnEvent(w, e))
  {
    hide Handlers, CommandRecv, RepliesInOrder, Clean;
    if e.Received? && w.link == Reading {
      if e.err { ReceiveFails(w, e.bytes); } else { ReceiveSafe(w, e.bytes); }
    } else {
      SameReplies(w, OnEvent(w, e).0);
    }
  }

  lemma ReceiveFails(w: World, bytes: seq<Byte>)
    ensures CommandRecv(w, true, bytes) == (w, SystemError)
  {
  }

  lemma {:induction false} HandlersSafe(w: World, es: seq<DeviceEvent>)
    requires Polling(w)
    ensures Completed(RunHandlers(w, es))
    decreases |es|
  {
    hide OnEvent, Dead, Clean, RepliesInOrder, Handlers;
    if es != [] {
      EventSafe(w, es[0]);
      var r := OnEvent(w, es[0]);
      if r.1 == Nothing && !r.0.fault { HandlersSafe(r.0, es[1..]); }
    }
  }

  lemma ClearedSafe(w: World)
    requires Polling(w) && !Dead(w)
    ensures var v := ClearAnyClientRequest(TerminateConnection(w).(cancelled := true)).(phase := ClientTurn);
      Inv(v) && Dead(v)
  {
    hide RepliesInOrder, SendError, Handlers;
    var u := TerminateConnection(w).(cancelled := true);
    SameReplies(w, u);
    if u.lastSource.Some? {
      ErrorSent(u, w.client.id, ERROR_OCCURED);
      var x := SendError(u, w.client.id, ERROR_OCCURED);
      SameReplies(x, x.(lastSource := None, phase := ClientTurn));
    } else {
      SameReplies(u, u.(phase := ClientTurn));
    }
  }

  lemma AfterHandlersSafe(w: World, es: seq<DeviceEvent>)
    requires Polling(w)
    ensures Sound(AfterHandlers(RunHandlers(w, es)))
  {
    hide RunHandlers, RepliesInOrder, Clean, Handlers;
    HandlersSafe(w, es);
    var r := RunHandlers(w, es);
    if r.0.fault {
    } else if r.1 == SystemError {
      ClearedSafe(r.0);
    } else {
      SameReplies(r.0, r.0.(phase := ClientTurn));
    }
  }

  /** A command is sent: its frame fits the buffer, or the copy is the first thing undefined. */
  lemma SendSafe(w: World)
    requires Inv(w) && w.phase == DeviceTurn && Waiting(w)
    ensures var v := SendCommand(w); if v.fault then !Clean(v.log) else Polling(v) && InFlight(v)
  {
    hide RepliesInOrder, Clean, Handlers, Frames.Frame;
    CleanSent(w.log, Frames.Frame(w.queue[0].code, w.queue[0].data));
    SameReplies(w, SendCommand(w));
  }

  lemma ResetSafe(w: World, again: Reconnection)
    requires Polling(w) && InFlight(w)
    ensures Inv(ResetModule(w, w.client.id, again).(phase := ClientTurn))
  {
    hide RepliesInOrder, SendResponse, Handlers, Clean;
    var u := TerminateConnection(w);
    SameReplies(w, u);
    ReplySent(u, w.client.id, []);
    var x := SendResponse(u, w.client.id, []);
    SameReplies(x, ResetModule(w, w.client.id, again).(phase := ClientTurn));
  }

  lemma PollDeviceSafe(w: World, es: seq<DeviceEvent>, again: Reconnection)
    requires Inv(w) && w.phase == DeviceTurn
    ensures Sound(PollDevice(w, es, again))
  {
    hide RepliesInOrder, AfterHandlers, RunHandlers, ResetModule, Handlers, Clean, SendCommand;
    if Waiting(w) {
      SendSafe(w);
      var v := SendCommand(w);
      if !v.fault {
        ResetSafe(v, again);
        AfterHandlersSafe(v, es);
      }
      SenderOwns(w);
    } else {
      AfterHandlersSafe(w, es);
    }
  }

  lemma SenderOwns(w: World)
    requires Waiting(w)
    ensures w.queue[0].sender == w.client.id == SendCommand(w).client.id
  {
    hide Handlers, Frames.Frame;
  }

  // ----- the client's turn -----

  /** The world just after a request was received, before it is handled. */
  ghost predicate Received(w: World) {
    && Inv(w) && w.phase == ClientTurn && !w.executing && w.client.pending.Some?
  }

  /** Handled at once, or the only entry of the queue. */
  ghost predicate Handled(w: World) {
    && Inv(w) && w.phase == Top && !w.executing && !w.client.closed
    && (w.client.pending.Some? ==> Waiting(w))
  }

  lemma ReplyHandles(w: World, v: World)
    requires Received(w) && OnlyReplied(w, v) && RepliesInOrder(v)
    ensures Handled(v.(phase := Top))
  {
    hide RepliesInOrder, Handlers;
    SameReplies(v, v.(phase := Top));
  }

  lemma ErrorHandles(w: World, code: Word32)
    requires Received(w) && IsErrorCode(code)
    ensures Handled(SendError(w, w.client.id, code).(phase := Top))
  {
    hide RepliesInOrder, SendError, Handlers;
    ErrorSent(w, w.client.id, code);
    ReplyHandles(w, SendError(w, w.client.id, code));
  }

  lemma QueueHandles(w: World, code: Word32, data: seq<Word32>)
    requires Received(w) && w.connected && code in Handlers() && (code == CMD_SET_PIXCONF || |data| <= 5)
    requires w.client.lastCommand == w.requests[w.client.pending.value].code
    ensures Handled(Queue(w, code, data).(phase := Top))
  {
    hide RepliesInOrder, Handlers;
    SameReplies(w, Queue(w, code, data).(phase := Top));
  }

  lemma NamedReceived(w: World, code: Word32)
    requires Received(w)
    ensures Received(w.(client := w.client.(lastCommand := code)))
  {
    hide Handlers;
  }

  lemma LoggedReceived(w: World, f: Forwarded)
    requires Received(w)
    ensures Received(w.(log := w.log.(forwarded := w.log.forwarded + [f])))
  {
    hide Handlers, Clean;
    CleanForwarded(w.log, f);
    SameReplies(w, w.(log := w.log.(forwarded := w.log.forwarded + [f])));
  }

  lemma ForwardHandles(w: World, code: Word32, f: Forwarding)
    requires Received(w) && w.requests[w.client.pending.value].code == code && (f.RefusedWith? ==> IsErrorCode(f.code))
    ensures f.Failed? ==> Inv(Forward(w, code, f).(phase := Top))
    ensures !f.Failed? ==> Handled(Forward(w, code, f).(phase := Top))
  {
    hide RepliesInOrder, SendError, PassOn, Handlers, Clean;
    LoggedReceived(w, Forwarded(w.client.pending, f));
    var v := w.(log := w.log.(forwarded := w.log.forwarded + [Forwarded(w.client.pending, f)]));
    match f
    case NotStarted => ErrorHandles(v, THREAD_NOT_STARTED);
    case NotConnected => ErrorHandles(v, THREAD_NOT_CONNECTED);
    case Failed => SameReplies(v, v.(phase := Top));
    case Answered(data) => WordsPassedOn(v, [code] + data); ReplyHandles(v, PassOn(v, [code] + data));
    case RefusedWith(c) => WordsPassedOn(v, [c]); ReplyHandles(v, PassOn(v, [c]));
  }

  lemma BindHandles(w: World)
    requires Received(w) && w.client.lastCommand == w.requests[w.client.pending.value].code
    ensures Handled(SendResponse(w, w.client.id, []).(phase := Top))
  {
    hide RepliesInOrder, SendResponse, Handlers;
    ReplySent(w, w.client.id, []);
    ReplyHandles(w, SendResponse(w, w.client.id, []));
  }

  lemma NamedHandles(w: World, m: Message, f: Forwarding)
    requires Received(w) && w.connected && w.requests[w.client.pending.value].code == m.code && !m.ragged
    requires m.code in Forwards() || m.code == SET_PIXEL_CONFIG || m.code == SET_UDP_PORT
    ensures Handled(HandleCommand(w, m, f).(phase := Top))
  {
    hide RepliesInOrder, SendError, SendResponse, Handlers, Forwards, Queue, PixelRemainder, Handled, Inv;
    TablesAgree();
    var v := w.(client := w.client.(lastCommand := m.code));
    NamedReceived(w, m.code);
    if m.code == SET_PIXEL_CONFIG {
      if PixelRemainder(|m.data|) != 0 { ErrorHandles(v, INVALID_COMMAND_DATA); } else { QueueHandles(v, CMD_SET_PIXCONF, m.data); }
    } else if m.code == SET_UDP_PORT {
      if |m.data| != 1 { ErrorHandles(v, INVALID_COMMAND_DATA); } else { BindHandles(v); }
    } else if |m.data| != Forwards()[m.code].0 {
      ErrorHandles(v, INVALID_COMMAND_DATA);
    } else {
      QueueHandles(v, Forwards()[m.code].1, m.data);
    }
  }

  lemma HandleSafe(w: World, m: Message, f: Forwarding)
    requires Received(w) && w.requests[w.client.pending.value].code == m.code && (f.RefusedWith? ==> IsErrorCode(f.code))
    ensures Inv(HandleCommand(w, m, f).(phase := Top))
    ensures !f.Failed? ==> Handled(HandleCommand(w, m, f).(phase := Top))
  {
    hide SendError, SendResponse, Forwards, Forward, Queue, PixelRemainder, Received, Inv;
    if !w.connected {
      ErrorHandles(w, ERROR_OCCURED);
    } else if m.ragged {
      ErrorHandles(w, INVALID_COMMAND_DATA);
    } else if m.code in Forwards() || m.code == SET_PIXEL_CONFIG || m.code == SET_UDP_PORT {
      NamedHandles(w, m, f);
    } else if ForSecondaryThread(m.code) {
      ForwardHandles(w, m.code, f);
    } else {
      ErrorHandles(w, UNKNOWN_COMMAND);
    }
  }

  /** Receiving a request. */
  function Accept(w: World, code: Word32): World {
    w.(client := w.client.(pending := Some(|w.requests|)), requests := w.requests + [Request(w.client.id, code)])
  }

  lemma AcceptSafe(w: World, code: Word32)
    requires Inv(w) && w.phase == ClientTurn && !w.executing && w.client.pending.None?
    ensures Received(Accept(w, code)) && Accept(w, code).requests[|w.requests|].code == code
  {
    hide Handlers;
    var v := Accept(w, code);
    assert forall i | 0 <= i < |w.requests| :: v.requests[i] == w.requests[i];
    assert v.requests[|w.requests|] == Request(w.client.id, code);
    assert RepliesInOrder(v);
  }

  lemma PollClientSafe(w: World, m: Option<Message>, f: Forwarding)
    requires Inv(w) && w.phase == ClientTurn && !w.executing && (f.RefusedWith? ==> IsErrorCode(f.code))
    ensures Inv(PollClient(w, m, f).(phase := Top))
    ensures !f.Failed? && w.client.pending.None? ==> Handled(PollClient(w, m, f).(phase := Top))
  {
    hide HandleCommand, RepliesInOrder, Handlers;
    if w.client.pending.Some? {
      ClosedSafe(w);
    } else if m.None? {
      SameReplies(w, w.(phase := Top));
    } else {
      AcceptSafe(w, m.value.code);
      HandleSafe(Accept(w, m.value.code), m.value, f);
    }
  }

  lemma ClosedSafe(w: World)
    requires Inv(w) && w.phase == ClientTurn && !w.executing
    ensures Inv(w.(client := w.client.(closed := true), shouldReset := true, phase := Top))
  {
    hide Handlers;
    var v := w.(client := w.client.(closed := true), shouldReset := true, phase := Top);
    assert RepliesInOrder(v);
  }

  // ----- the loop -----

  lemma LoopTopSafe(w: World)
    requires Inv(w) && w.phase == Top
    ensures Inv(Step(w, LoopTop))
  {
    if w.cancelled {
      ShutdownSafe(w);
    } else {
      hide Handlers;
      var v := Step(w, LoopTop);
      assert RepliesInOrder(v);
    }
  }

  lemma ShutdownSafe(w: World)
    requires Inv(w) && w.phase == Top
    ensures Inv(Shutdown(w))
  {
    hide RepliesInOrder, SendError, Handlers;
    if w.lastSource.Some? {
      ErrorSent(w, w.client.id, ERROR_OCCURED);
      SameReplies(SendError(w, w.client.id, ERROR_OCCURED), Shutdown(w));
    } else {
      SameReplies(w, Shutdown(w));
    }
  }

  lemma StepSafe(w: World, e: Event)
    requires Sound(w) && Proper(e)
    ensures Sound(Step(w, e))
  {
    hide RepliesInOrder, PollDevice, PollClient, Handlers, ReplaceClient, Shutdown, Clean;
    if !w.fault {
      match e
      case Stop => SameReplies(w, w.(cancelled := true));
      case LoopTop => if w.phase == Top { LoopTopSafe(w); }
      case DevicePoll(es, again) => if w.phase == DeviceTurn { PollDeviceSafe(w, es, again); }
      case ClientPoll(m, f) =>
        if w.phase == ClientTurn {
          if w.executing { SameReplies(w, w.(phase := Top)); } else { PollClientSafe(w, m, f); }
        }
    }
  }

  lemma StartSafe(attempted: bool)
    ensures Inv(Start(attempted))
  {
    hide Handlers;
  }

  /** Over every run: unless a frame in the log is the cause of something undefined, no client pointer dangles,
      no reply is sent out of turn, at most one command is queued or in flight and it is the current client's,
      and the replies are in order. */
  lemma {:induction false} RunSafe(attempted: bool, es: seq<Event>)
    requires forall e | e in es :: Proper(e)
    ensures Sound(Run(attempted, es))
  {
    hide Step, Proper, Inv, Clean;
    StartSafe(attempted);
    if es != [] {
      RunSafe(attempted, es[..|es| - 1]);
      StepSafe(Run(attempted, es[..|es| - 1]), es[|es| - 1]);
    }
  }

  /** Something undefined was done if and only if a frame longer than the command buffer was sent, or one was
      received with an unknown error code or a length below 16. */
  lemma FaultExact(attempted: bool, es: seq<Event>)
    requires forall e | e in es :: Proper(e)
    ensures var w := Run(attempted, es);
      w.fault <==> (exists f | f in w.log.toDevice :: |f| > Frames.TPX_BUFFER)
                   || (exists h | h in w.log.fromDevice :: Frames.Harmful(h.bytes))
  {
    RunSafe(attempted, es);
    hide Run, RepliesInOrder, Handlers, Frames.Harmful;
  }

  // ----- traffic that cannot do harm -----

  /** No harmful frame from the device, no request of more than 252 words from a client. */
  predicate Moderate(e: Event) {
    && (e.DevicePoll? ==> forall d | d in e.es :: ModerateDevice(d))
    && (e.ClientPoll? && e.m.Some? ==> |e.m.value.data| <= 252)
  }

  predicate ModerateDevice(d: DeviceEvent) { d.Received? && !d.err ==> !Frames.Harmful(d.bytes) }

  ghost predicate Modest(w: World) {
    Clean(w.log) && forall c | c in w.queue :: |c.data| <= 252
  }

  lemma SameModest(w: World, v: World)
    requires Modest(w) && v.log == w.log && (v.queue == w.queue || v.queue == w.queue[..0] || (w.queue != [] && v.queue == w.queue[1..]))
    ensures Modest(v)
  {
    hide Clean;
  }

  lemma EventModest(w: World, e: DeviceEvent)
    requires Modest(w) && ModerateDevice(e)
    ensures Modest(OnEvent(w, e).0)
  {
    hide Clean, CommandRecv;
    if e.Received? && w.link == Reading {
      if e.err { ReceiveFails(w, e.bytes); } else { ReceiveModest(w, e.bytes); }
    }
  }

  lemma ReceiveModest(w: World, bytes: seq<Byte>)
    requires Modest(w) && !Frames.Harmful(bytes)
    ensures Modest(CommandRecv(w, false, bytes).0)
  {
    hide Clean, AnswerClient, Frames.Parse, Frames.Harmful;
    CleanHeard(w.log, Heard(w.client.pending, bytes));
    SameModest(Hear(w, bytes), CommandRecv(w, false, bytes).0);
  }

  lemma {:induction false} HandlersModest(w: World, es: seq<DeviceEvent>)
    requires Modest(w) && forall d | d in es :: ModerateDevice(d)
    ensures Modest(RunHandlers(w, es).0)
    decreases |es|
  {
    hide Modest, ModerateDevice, OnEvent;
    if es != [] && !w.fault {
      EventModest(w, es[0]);
      var r := OnEvent(w, es[0]);
      if r.1 == Nothing { HandlersModest(r.0, es[1..]); }
    }
  }

  lemma AfterModest(r: (World, Thrown))
    requires Modest(r.0)
    ensures Modest(AfterHandlers(r))
  {
    hide Clean, ClearAnyClientRequest;
    SameModest(r.0, AfterHandlers(r));
  }

  lemma SendModest(w: World)
    requires Modest(w) && w.queue != []
    ensures Modest(SendCommand(w))
  {
    hide Clean;
    assert w.queue[0] in w.queue;
    CleanSent(w.log, Frames.Frame(w.queue[0].code, w.queue[0].data));
  }

  lemma PollDeviceModest(w: World, es: seq<DeviceEvent>, again: Reconnection)
    requires Modest(w) && forall d | d in es :: ModerateDevice(d)
    ensures Modest(PollDevice(w, es, again))
  {
    hide Modest, ModerateDevice, RunHandlers, AfterHandlers, SendCommand, ResetModule;
    HandlersModest(w, es);
    AfterModest(RunHandlers(w, es));
    if w.queue != [] {
      SendModest(w);
      var v := SendCommand(w);
      HandlersModest(v, es);
      AfterModest(RunHandlers(v, es));
      ResetModest(v, w.queue[0].sender, again);
    }
  }

  lemma ResetModest(w: World, to: nat, again: Reconnection)
    requires Modest(w)
    ensures Modest(ResetModule(w, to, again).(phase := ClientTurn))
  {
    hide Clean, SendResponse;
    SameModest(w, ResetModule(w, to, again).(phase := ClientTurn));
  }

  lemma ForwardModest(w: World, code: Word32, f: Forwarding)
    requires Modest(w)
    ensures Modest(Forward(w, code, f))
  {
    hide Clean, SendError, PassOn;
    CleanForwarded(w.log, Forwarded(w.client.pending, f));
  }

  lemma HandleModest(w: World, m: Message, f: Forwarding)
    requires Modest(w) && |m.data| <= 252
    ensures Modest(HandleCommand(w, m, f))
  {
    hide Clean, Forwards, SendError, SendResponse, PixelRemainder, Forward;
    ForwardModest(w, m.code, f);
  }

  lemma PollClientModest(w: World, m: Option<Message>, f: Forwarding)
    requires Modest(w) && (m.Some? ==> |m.value.data| <= 252)
    ensures Modest(PollClient(w, m, f).(phase := Top))
  {
    hide Clean, HandleCommand;
    if w.client.pending.None? && m.Some? { HandleModest(Accept(w, m.value.code), m.value, f); }
  }

  lemma StepModest(w: World, e: Event)
    requires Modest(w) && Moderate(e)
    ensures Modest(Step(w, e))
  {
    hide Clean, PollDevice, PollClient, ModerateDevice;
    match e
    case Stop =>
    case LoopTop => SameModest(w, Step(w, e));
    case DevicePoll(es, again) => PollDeviceModest(w, es, again);
    case ClientPoll(m, f) => PollClientModest(w, m, f);
  }

  /** Moderate traffic never leads to anything undefined. */
  lemma {:induction false} ModerateSafe(attempted: bool, es: seq<Event>)
    requires forall e | e in es :: Proper(e) && Moderate(e)
    ensures Inv(Run(attempted, es)) && Modest(Run(attempted, es))
  {
    hide Step, Proper, Moderate, Inv;
    StartSafe(attempted);
    RunSafe(attempted, es);
    if es != [] {
      ModerateSafe(attempted, es[..|es| - 1]);
      StepModest(Run(attempted, es[..|es| - 1]), es[|es| - 1]);
    }
  }
}
