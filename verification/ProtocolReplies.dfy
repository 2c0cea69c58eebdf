/** Which requests are answered, over every run in which nothing undefined was done: all but those whose
    reply carried an unknown code, those whose forwarding failed, and at most one that is still queued. */
module ProtocolReplies {
  import opened Words
  import opened Protocol
  import opened Tables
  import opened ProtocolSafety
  import Frames

  // ----- consequences of the safety invariant -----

  /** Whenever the client is polled, nothing is queued and no reply is owed on behalf of the device. */
  lemma ClientPolledClean(attempted: bool, es: seq<Event>)
    requires (forall e | e in es :: Proper(e)) && !Run(attempted, es).fault
    ensures var w := Run(attempted, es);
      w.phase == ClientTurn && !w.executing ==> w.queue == [] && w.lastSource == None
  {
    RunSafe(attempted, es);
    hide Run, RepliesInOrder, Handlers, Clean;
  }

  /** When the client manager is replaced, no queued command and no last source points to the old one. */
  lemma ReplacementClean(attempted: bool, es: seq<Event>)
    requires (forall e | e in es :: Proper(e)) && !Run(attempted, es).fault
    ensures var w := Run(attempted, es);
      w.phase == Top && w.shouldReset ==> w.queue == [] && w.lastSource == None
  {
    RunSafe(attempted, es);
    hide Run, RepliesInOrder, Handlers, Clean;
  }

  /** At most one command is queued or in flight, it is the current client's, and a reply from the
      device always finds a client to answer. */
  lemma OneInFlight(attempted: bool, es: seq<Event>)
    requires (forall e | e in es :: Proper(e)) && !Run(attempted, es).fault
    ensures var w := Run(attempted, es);
      && |w.queue| <= 1
      && (w.lastSource.Some? ==> w.executing && |w.queue| == 1 && w.lastSource.value == w.queue[0].sender == w.client.id)
      && ((w.link == Sending || w.link == Reading) ==> w.lastSource.Some?)
  {
    RunSafe(attempted, es);
    hide Run, RepliesInOrder, Handlers, Clean;
  }

  /** No request gets two replies, and a reply that is no error starts with its request's own code. */
  lemma RepliesMatch(attempted: bool, es: seq<Event>, i: nat, j: nat)
    requires (forall e | e in es :: Proper(e)) && !Run(attempted, es).fault
    requires i < |Run(attempted, es).replies| && j < |Run(attempted, es).replies|
    ensures var w := Run(attempted, es);
      && (w.replies[i].request == w.replies[j].request ==> i == j)
      && w.replies[i].request < |w.requests| && w.replies[i].words != []
      && (!IsErrorCode(w.replies[i].words[0]) ==> w.replies[i].words[0] == w.requests[w.replies[i].request].code)
  {
    RunSafe(attempted, es);
    hide Run, Handlers, Clean;
  }

  // ----- answered, lost, or open -----

  ghost predicate Answered(w: World, r: nat) {
    exists i :: 0 <= i < |w.replies| && w.replies[i].request == r
  }

  /** A frame that passes every check but whose command has no handler. */
  predicate UnknownReply(b: seq<Byte>) {
    Frames.Parse(b).Command? && Frames.Parse(b).cmd !in Handlers()
  }

  /** The device's reply to the request was unknown, or forwarding the request failed. */
  ghost predicate Lost(log: Log, r: nat) {
    || (exists h :: h in log.fromDevice && h.request == Some(r) && UnknownReply(h.bytes))
    || (exists f :: f in log.forwarded && f.request == Some(r) && f.f.Failed?)
  }

  /** The command of request r is still queued and was not sent. */
  ghost predicate NeverSent(w: World, r: nat) {
    w.client.pending == Some(r) && w.queue != [] && !w.executing
  }

  ghost predicate Books(w: World) {
    && (forall r: nat | r < |w.requests| :: Answered(w, r) || Lost(w.log, r) || w.client.pending == Some(r))
    && (forall r: nat | Lost(w.log, r) :: r < |w.requests| && !Answered(w, r))
  }

  /** An open request is lost if and only if nothing is queued for it. */
  ghost predicate Settled(w: World) {
    && (w.client.pending.Some? ==> (Lost(w.log, w.client.pending.value) <==> w.queue == []))
    && (w.client.closed ==> w.client.pending.Some?)
  }

  ghost predicate Accounted(w: World) { Books(w) && Settled(w) }

  lemma LostSent(log: Log, f: seq<Byte>, r: nat)
    ensures Lost(log.(toDevice := log.toDevice + [f]), r) <==> Lost(log, r)
  {
    hide UnknownReply;
  }

  lemma LostHeard(log: Log, h: Heard, r: nat)
    ensures Lost(log.(fromDevice := log.fromDevice + [h]), r)
      <==> Lost(log, r) || (h.request == Some(r) && UnknownReply(h.bytes))
  {
    hide UnknownReply;
    var l := log.(fromDevice := log.fromDevice + [h]);
    assert h in l.fromDevice && forall g | g in log.fromDevice :: g in l.fromDevice;
  }

  lemma LostForwarded(log: Log, f: Forwarded, r: nat)
    ensures Lost(log.(forwarded := log.forwarded + [f]), r) <==> Lost(log, r) || (f.request == Some(r) && f.f.Failed?)
  {
    hide UnknownReply;
    var l := log.(forwarded := log.forwarded + [f]);
    assert f in l.forwarded && forall g | g in log.forwarded :: g in l.forwarded;
  }

  lemma LostGrows(l: Log, m: Log, r: nat)
    requires Grows(l, m) && Lost(l, r)
    ensures Lost(m, r)
  {
    hide UnknownReply;
  }

  // ----- what keeps the books -----

  lemma SameBooks(w: World, v: World)
    requires Books(w) && v.client.pending == w.client.pending && v.requests == w.requests && v.replies == w.replies
    requires forall r: nat :: Lost(v.log, r) <==> Lost(w.log, r)
    ensures Books(v)
  {
    hide Lost;
    assert forall r: nat :: Answered(w, r) <==> Answered(v, r);
  }

  lemma SameAccounts(w: World, v: World)
    requires Accounted(w) && v.client == w.client && v.requests == w.requests && v.replies == w.replies
    requires v.log == w.log && (v.queue == [] <==> w.queue == [])
    ensures Accounted(v)
  {
    hide Lost, Books;
    SameBooks(w, v);
  }

  lemma ReplyBooks(w: World, v: World, words: seq<Word32>)
    requires Books(w) && w.client.pending.Some? && !Lost(w.log, w.client.pending.value)
    requires v.log == w.log && v.requests == w.requests && v.client.pending == None && w.client.pending.value < |w.requests|
    requires v.replies == w.replies + [Reply(w.client.pending.value, words)]
    ensures Books(v)
  {
    hide Lost;
    var p := w.client.pending.value;
    assert v.replies[|w.replies|] == Reply(p, words);
    forall r: nat ensures Answered(v, r) <==> Answered(w, r) || r == p {
      if Answered(w, r) {
        var i :| 0 <= i < |w.replies| && w.replies[i].request == r;
        assert v.replies[i].request == r;
      }
      if Answered(v, r) && r != p {
        var i :| 0 <= i < |v.replies| && v.replies[i].request == r;
        assert w.replies[i].request == r;
      }
    }
  }

  lemma SendBooks(w: World, data: seq<Word32>)
    requires Books(w) && w.client.pending.Some? && !w.client.closed
    requires w.client.pending.value < |w.requests| && !Lost(w.log, w.client.pending.value)
    ensures Accounted(SendResponse(w, w.client.id, data))
  {
    hide Lost, Books;
    ReplyBooks(w, SendResponse(w, w.client.id, data), [w.client.lastCommand] + data);
  }

  lemma ErrorBooks(w: World, code: Word32)
    requires Books(w) && w.client.pending.Some? && !w.client.closed
    requires w.client.pending.value < |w.requests| && !Lost(w.log, w.client.pending.value)
    ensures Accounted(SendError(w, w.client.id, code))
  {
    hide Lost, Books, SendResponse;
    var v := w.(client := w.client.(lastCommand := code));
    SameBooks(w, v);
    SendBooks(v, []);
  }

  lemma PassBooks(w: World, words: seq<Word32>)
    requires Books(w) && w.client.pending.Some? && !w.client.closed
    requires w.client.pending.value < |w.requests| && !Lost(w.log, w.client.pending.value)
    ensures Accounted(PassOn(w, words))
  {
    hide Lost, Books;
    ReplyBooks(w, PassOn(w, words), words);
  }

  /** The open request is given up. */
  lemma LostBooks(w: World, v: World)
    requires Books(w) && RepliesInOrder(w) && w.client.pending.Some?
    requires v.client == w.client && v.requests == w.requests && v.replies == w.replies && v.queue == []
    requires forall r: nat :: Lost(v.log, r) <==> Lost(w.log, r) || r == w.client.pending.value
    ensures Accounted(v)
  {
    hide Lost;
    assert forall r: nat :: Answered(w, r) <==> Answered(v, r);
    assert !Answered(w, w.client.pending.value);
  }

  // ----- the device side -----

  lemma HeardBooks(w: World, bytes: seq<Byte>)
    requires Accounted(w) && !UnknownReply(bytes)
    ensures Accounted(Hear(w, bytes))
  {
    hide Lost, UnknownReply, Books;
    forall r: nat ensures Lost(Hear(w, bytes).log, r) <==> Lost(w.log, r) {
      LostHeard(w.log, Heard(w.client.pending, bytes), r);
    }
    SameBooks(w, Hear(w, bytes));
  }

  /** A device command of the client's open request is queued. */
  ghost predicate Owed(w: World) { w.lastSource == Some(w.client.id) && OwnRequest(w) }

  lemma AnsweredFrame(w: World, code: Word32, data: seq<Word32>)
    requires Accounted(w) && Owed(w) && code in Handlers()
    ensures Accounted(ProcessRecv(w, code, data).0)
  {
    hide Lost, Books, SendResponse, SendError, Handlers;
    if |data| != Handlers()[code] {
      ErrorBooks(w, INVALID_COMMAND_DATA);
    } else {
      SendBooks(w, data);
    }
    var a := AnswerClient(w, w.client.id, code, data);
    SameBooks(a, ProcessRecv(w, code, data).0);
    AnswerClears(w, code, data);
  }

  lemma AnswerClears(w: World, code: Word32, data: seq<Word32>)
    requires Owed(w) && code in Handlers()
    ensures AnswerClient(w, w.client.id, code, data).client.pending == None
    ensures AnswerClient(w, w.client.id, code, data).client.closed == w.client.closed
  {
    hide Handlers;
  }

  lemma UnknownFrame(w: World, bytes: seq<Byte>)
    requires Accounted(w) && Inv(w) && InFlight(w) && w.link == Reading && UnknownReply(bytes)
    ensures var v := CommandRecv(w, false, bytes).0;
      Accounted(v) && Lost(v.log, w.client.pending.value) && v.phase == w.phase
  {
    hide Lost, Books, Handlers, Frames.Parse, Clean, RepliesInOrder;
    var v := CommandRecv(w, false, bytes).0;
    forall r: nat ensures Lost(v.log, r) <==> Lost(w.log, r) || r == w.client.pending.value {
      LostHeard(w.log, Heard(w.client.pending, bytes), r);
    }
    LostBooks(w, v);
  }

  lemma ReceiveAccounted(w: World, bytes: seq<Byte>)
    requires Accounted(w) && Polling(w) && w.link == Reading
    ensures var v := CommandRecv(w, false, bytes).0; v.fault || Accounted(v)
  {
    hide Lost, Books, Handlers, Frames.Parse, Clean, RepliesInOrder, ProcessRecv, Settled, UnknownReply;
    if UnknownReply(bytes) {
      UnknownFrame(w, bytes);
    } else {
      HeardBooks(w, bytes);
      var u := Hear(w, bytes);
      if Frames.Parse(bytes).Command? {
        SameAccounts(u, u.(link := Quiet));
        KnownReply(bytes);
        AnsweredFrame(u.(link := Quiet), Frames.Parse(bytes).cmd, Frames.Parse(bytes).data);
      } else {
        SameAccounts(u, u.(link := Stalled));
      }
    }
  }

  lemma KnownReply(bytes: seq<Byte>)
    requires !UnknownReply(bytes) && Frames.Parse(bytes).Command?
    ensures Frames.Parse(bytes).cmd in Handlers()
  {
  }

  lemma EventAccounted(w: World, e: DeviceEvent)
    requires Accounted(w) && Polling(w)
    ensures var v := OnEvent(w, e).0; v.fault || Accounted(v)
  {
    hide CommandRecv, Accounted, Handlers, Clean, RepliesInOrder;
    if e.Received? && w.link == Reading {
      if e.err { ReceiveFails(w, e.bytes); } else { ReceiveAccounted(w, e.bytes); }
    } else {
      SameAccounts(w, OnEvent(w, e).0);
    }
  }

  lemma {:induction false} HandlersAccounted(w: World, es: seq<DeviceEvent>)
    requires Accounted(w) && Polling(w)
    ensures var v := RunHandlers(w, es).0; v.fault || Accounted(v)
    decreases |es|
  {
    if es != [] {
      EventSafe(w, es[0]);
      EventAccounted(w, es[0]);
      hide OnEvent, Polling, Accounted, Clean;
      var r := OnEvent(w, es[0]);
      if r.1 == Nothing && !r.0.fault { HandlersAccounted(r.0, es[1..]); }
    }
  }

  lemma ClearedAccounted(w: World)
    requires Accounted(w) && (w.lastSource.Some? ==> Owed(w))
    ensures Accounted(ClearAnyClientRequest(w))
  {
    hide Lost, Books, SendError, Handlers;
    if w.lastSource.Some? {
      ErrorBooks(w, ERROR_OCCURED);
      SameAccounts(SendError(w, w.client.id, ERROR_OCCURED), ClearAnyClientRequest(w));
    }
  }

  lemma AfterHandlersAccounted(w: World, es: seq<DeviceEvent>)
    requires Accounted(w) && Polling(w)
    ensures var v := AfterHandlers(RunHandlers(w, es)); v.fault || Accounted(v)
  {
    hide RunHandlers, RepliesInOrder, Handlers, ClearAnyClientRequest, Accounted, Clean;
    HandlersSafe(w, es);
    HandlersAccounted(w, es);
    var r := RunHandlers(w, es);
    if !r.0.fault {
      if r.1 == SystemError {
        var u := TerminateConnection(r.0).(cancelled := true);
        SameAccounts(r.0, u);
        ClearedAccounted(u);
        SameAccounts(ClearAnyClientRequest(u), ClearAnyClientRequest(u).(phase := ClientTurn));
      } else {
        SameAccounts(r.0, r.0.(phase := ClientTurn));
      }
    }
  }

  lemma SentAccounted(w: World)
    requires Accounted(w) && Waiting(w)
    ensures Accounted(SendCommand(w))
  {
    hide Lost, Books, Frames.Frame, Handlers;
    var v := SendCommand(w);
    forall r: nat ensures Lost(v.log, r) <==> Lost(w.log, r) {
      LostSent(w.log, Frames.Frame(w.queue[0].code, w.queue[0].data), r);
    }
    SameBooks(w, v);
  }

  lemma ResetAccounted(w: World, again: Reconnection)
    requires Accounted(w) && InFlight(w)
    ensures Accounted(ResetModule(w, w.client.id, again).(phase := ClientTurn))
  {
    hide Lost, Books, SendResponse, Handlers;
    var u := TerminateConnection(w);
    SameBooks(w, u);
    SendBooks(u, []);
    var v := ResetModule(w, w.client.id, again).(phase := ClientTurn);
    SameBooks(SendResponse(u, w.client.id, []), v);
    SendClears(u);
  }

  lemma SendClears(w: World)
    requires w.client.pending.Some? && !w.client.closed
    ensures var v := SendResponse(w, w.client.id, []); v.client.pending == None && !v.client.closed
  {
  }

  lemma PollDeviceAccounted(w: World, es: seq<DeviceEvent>, again: Reconnection)
    requires Accounted(w) && Inv(w) && w.phase == DeviceTurn
    ensures var v := PollDevice(w, es, again); v.fault || Accounted(v)
  {
    hide RepliesInOrder, AfterHandlers, RunHandlers, ResetModule, Handlers, Accounted, SendCommand, Clean;
    if Waiting(w) {
      SendSafe(w);
      SentAccounted(w);
      SenderOwns(w);
      var v := SendCommand(w);
      if !v.fault {
        ResetAccounted(v, again);
        AfterHandlersAccounted(v, es);
      }
    } else {
      AfterHandlersAccounted(w, es);
    }
  }

  // ----- the client side -----

  /** A request that was just received. */
  ghost predicate Fresh(w: World) {
    && Books(w) && ProtocolSafety.Received(w) && w.client.pending.value < |w.requests| && !Lost(w.log, w.client.pending.value)
    && w.queue == []
  }

  lemma AcceptFresh(w: World, code: Word32)
    requires Accounted(w) && Inv(w) && w.phase == ClientTurn && !w.executing && w.client.pending.None?
    ensures Fresh(Accept(w, code))
  {
    AcceptSafe(w, code);
    hide Lost, Handlers, Clean, RepliesInOrder;
    assert forall r: nat :: Answered(w, r) <==> Answered(Accept(w, code), r);
  }

  lemma ForwardAccounted(w: World, code: Word32, f: Forwarding)
    requires Fresh(w)
    ensures Accounted(Forward(w, code, f))
  {
    hide Lost, Books, SendError, PassOn, Handlers, Clean, RepliesInOrder;
    var v := w.(log := w.log.(forwarded := w.log.forwarded + [Forwarded(w.client.pending, f)]));
    forall r: nat ensures Lost(v.log, r) <==> Lost(w.log, r) || (r == w.client.pending.value && f.Failed?) {
      LostForwarded(w.log, Forwarded(w.client.pending, f), r);
    }
    if f.Failed? {
      LostBooks(w, v);
    } else {
      SameBooks(w, v);
      match f
      case NotStarted => ErrorBooks(v, THREAD_NOT_STARTED);
      case NotConnected => ErrorBooks(v, THREAD_NOT_CONNECTED);
      case Answered(data) => PassBooks(v, [code] + data);
      case RefusedWith(c) => PassBooks(v, [c]);
    }
  }

  lemma QueueAccounted(w: World, code: Word32, data: seq<Word32>)
    requires Fresh(w)
    ensures Accounted(Queue(w, code, data))
  {
    hide Lost, Books, Handlers, Clean, RepliesInOrder;
    SameBooks(w, Queue(w, code, data));
  }

  lemma NamedFresh(w: World, code: Word32)
    requires Fresh(w)
    ensures Fresh(w.(client := w.client.(lastCommand := code)))
  {
    NamedReceived(w, code);
    hide Lost, Books, ProtocolSafety.Received;
    SameBooks(w, w.(client := w.client.(lastCommand := code)));
  }

  lemma FreshError(w: World, code: Word32)
    requires Fresh(w)
    ensures Accounted(SendError(w, w.client.id, code))
  {
    hide Lost, Books, SendError, Handlers, Clean, RepliesInOrder;
    ErrorBooks(w, code);
  }

  lemma FreshReply(w: World)
    requires Fresh(w)
    ensures Accounted(SendResponse(w, w.client.id, []))
  {
    hide Lost, Books, SendResponse, Handlers, Clean, RepliesInOrder;
    SendBooks(w, []);
  }

  lemma HandleAccounted(w: World, m: Message, f: Forwarding)
    requires Fresh(w)
    ensures Accounted(HandleCommand(w, m, f))
  {
    hide Fresh, Accounted, SendError, SendResponse, Forwards, Forward, Queue, PixelRemainder;
    var v := w.(client := w.client.(lastCommand := m.code));
    NamedFresh(w, m.code);
    FreshError(w, ERROR_OCCURED);
    FreshError(w, INVALID_COMMAND_DATA);
    FreshError(w, UNKNOWN_COMMAND);
    FreshError(v, INVALID_COMMAND_DATA);
    FreshReply(v);
    ForwardAccounted(w, m.code, f);
    QueueAccounted(v, CMD_SET_PIXCONF, m.data);
    if m.code in Forwards() { QueueAccounted(v, Forwards()[m.code].1, m.data); }
  }

  lemma PollClientAccounted(w: World, m: Option<Message>, f: Forwarding)
    requires Accounted(w) && Inv(w) && w.phase == ClientTurn && !w.executing
    ensures Accounted(PollClient(w, m, f).(phase := Top))
  {
    hide HandleCommand, Lost, Books, Handlers, Clean, RepliesInOrder;
    var v := PollClient(w, m, f);
    if w.client.pending.Some? {
      SameBooks(w, v.(phase := Top));
    } else {
      if m.Some? {
        AcceptFresh(w, m.value.code);
        HandleAccounted(Accept(w, m.value.code), m.value, f);
      }
      SameAccounts(v, v.(phase := Top));
    }
  }

  // ----- the loop -----

  /** A replaced client manager takes a request with it that was lost already. */
  lemma ReplaceAccounted(w: World)
    requires Accounted(w) && Inv(w) && w.phase == Top && w.client.closed
    ensures Accounted(ReplaceClient(w).(phase := DeviceTurn))
  {
    hide Lost, Handlers, Clean, RepliesInOrder;
    var v := ReplaceClient(w).(phase := DeviceTurn);
    assert w.queue == [];
    assert forall r: nat :: Answered(w, r) <==> Answered(v, r);
  }

  lemma LoopTopAccounted(w: World)
    requires Accounted(w) && Inv(w) && w.phase == Top
    ensures Accounted(Step(w, LoopTop))
  {
    hide Accounted, Handlers, Clean, RepliesInOrder, ReplaceClient, ClearAnyClientRequest;
    if w.cancelled {
      ClearedAccounted(w);
      SameAccounts(ClearAnyClientRequest(w), Shutdown(w));
    } else if w.shouldReset {
      ReplaceAccounted(w);
    } else {
      SameAccounts(w, w.(phase := DeviceTurn));
    }
  }

  lemma StepAccounted(w: World, e: Event)
    requires Accounted(w) && Inv(w) && Proper(e)
    ensures var v := Step(w, e); v.fault || Accounted(v)
  {
    hide RepliesInOrder, PollDevice, PollClient, Handlers, Accounted, Clean;
    match e
    case Stop => SameAccounts(w, w.(cancelled := true));
    case LoopTop => if w.phase == Top { LoopTopAccounted(w); }
    case DevicePoll(es, again) => if w.phase == DeviceTurn { PollDeviceAccounted(w, es, again); }
    case ClientPoll(m, f) =>
      if w.phase == ClientTurn {
        if w.executing { SameAccounts(w, w.(phase := Top)); } else { PollClientAccounted(w, m, f); }
      }
  }

  lemma StartAccounted(attempted: bool)
    ensures Accounted(Start(attempted))
  {
  }

  lemma {:induction false} RunAccounted(attempted: bool, es: seq<Event>)
    requires forall e | e in es :: Proper(e)
    ensures var w := Run(attempted, es); w.fault || (Inv(w) && Accounted(w))
  {
    hide Step, Proper, Inv, Accounted, Clean;
    StartAccounted(attempted);
    RunSafe(attempted, es);
    if es != [] {
      var w, e := Run(attempted, es[..|es| - 1]), es[|es| - 1];
      RunSafe(attempted, es[..|es| - 1]);
      RunAccounted(attempted, es[..|es| - 1]);
      if w.fault { StepStops(w, e); } else { StepAccounted(w, e); }
    }
  }

  lemma StepStops(w: World, e: Event)
    requires w.fault
    ensures Step(w, e) == w
  {
  }

  // ----- the main results -----

  /** At any time a request is unanswered if and only if its reply was unknown, its forwarding failed, or it is
      the client's open request and its command is queued or in flight. */
  lemma UnansweredExact(attempted: bool, es: seq<Event>, r: nat)
    requires (forall e | e in es :: Proper(e)) && !Run(attempted, es).fault && r < |Run(attempted, es).requests|
    ensures var w := Run(attempted, es);
      !Answered(w, r) <==> Lost(w.log, r) || (w.client.pending == Some(r) && w.queue != [])
  {
    RunAccounted(attempted, es);
    var w := Run(attempted, es);
    assert w.client.pending == Some(r) ==> !Answered(w, r);
    hide Run, Lost, Handlers, Clean;
  }

  /** When the server has stopped: if and only if its reply was unknown, its forwarding failed, or its command
      is still queued and was never sent. */
  lemma StoppedExact(attempted: bool, es: seq<Event>, r: nat)
    requires (forall e | e in es :: Proper(e)) && !Run(attempted, es).fault && r < |Run(attempted, es).requests|
    requires Run(attempted, es).phase == Stopped
    ensures var w := Run(attempted, es);
      !Answered(w, r) <==> Lost(w.log, r) || NeverSent(w, r)
  {
    UnansweredExact(attempted, es, r);
    RunSafe(attempted, es);
    hide Run, Lost, Answered, Handlers, Clean, RepliesInOrder;
  }

  /** A lost request stays unanswered, however the run goes on. */
  lemma LostForGood(attempted: bool, es: seq<Event>, more: seq<Event>, r: nat)
    requires (forall e | e in es + more :: Proper(e)) && !Run(attempted, es + more).fault
    requires Lost(Run(attempted, es).log, r)
    ensures !Answered(Run(attempted, es + more), r)
  {
    hide Steps, Lost, Proper, Answered, Handlers;
    StepsConcat(Start(attempted), es, more);
    LostGrows(Run(attempted, es).log, Run(attempted, es + more).log, r);
    RunAccounted(attempted, es + more);
  }

  /** A reply with an unknown code leaves its request without an answer for good. */
  lemma UnknownReplyLoses(attempted: bool, es: seq<Event>, bytes: seq<Byte>, again: Reconnection, more: seq<Event>)
    requires var all := es + [DevicePoll([Received(false, bytes)], again)] + more;
      (forall e | e in all :: Proper(e)) && !Run(attempted, all).fault
    requires var w := Run(attempted, es); InFlight(w) && w.phase == DeviceTurn && w.link == Reading
    requires UnknownReply(bytes)
    ensures var all := es + [DevicePoll([Received(false, bytes)], again)] + more;
      !Answered(Run(attempted, all), Run(attempted, es).client.pending.value)
  {
    hide Steps, Proper, UnknownReply, Answered, Accounted, Inv, RepliesInOrder, Handlers, Lost;
    var e := DevicePoll([Received(false, bytes)], again);
    var w := Run(attempted, es);
    ProperFront(es, [e] + more);
    assert es + ([e] + more) == es + [e] + more;
    FaultStays(attempted, es, [e] + more);
    RunAccounted(attempted, es);
    UnknownPoll(w, bytes, again);
    RunOne(attempted, es, e);
    LostForGood(attempted, es + [e], more, w.client.pending.value);
  }

  lemma ProperFront(es: seq<Event>, more: seq<Event>)
    requires forall e | e in es + more :: Proper(e)
    ensures forall e | e in es :: Proper(e)
  {
    hide Proper;
    forall e | e in es ensures Proper(e) { assert e in es + more; }
  }

  lemma RunOne(attempted: bool, es: seq<Event>, e: Event)
    ensures Run(attempted, es + [e]) == Step(Run(attempted, es), e)
  {
    hide Step;
    assert (es + [e])[..|es|] == es;
  }

  lemma {:induction false} FaultStays(attempted: bool, es: seq<Event>, more: seq<Event>)
    ensures Run(attempted, es).fault ==> Run(attempted, es + more).fault
  {
    hide Step;
    if more == [] {
      assert es + more == es;
    } else {
      var n := |more| - 1;
      FaultStays(attempted, es, more[..n]);
      assert es + more == es + more[..n] + [more[n]];
      RunOne(attempted, es + more[..n], more[n]);
      if Run(attempted, es + more[..n]).fault { StepStops(Run(attempted, es + more[..n]), more[n]); }
    }
  }

  lemma UnknownPoll(w: World, bytes: seq<Byte>, again: Reconnection)
    requires Accounted(w) && Inv(w) && InFlight(w) && w.phase == DeviceTurn && w.link == Reading && UnknownReply(bytes)
    ensures Lost(Step(w, DevicePoll([Received(false, bytes)], again)).log, w.client.pending.value)
  {
    hide CommandRecv, Accounted, RepliesInOrder, Handlers, Lost, UnknownReply, Clean, Answered;
    UnknownFrame(w, bytes);
    var e := Received(false, bytes);
    assert [e][1..] == [];
    var r := CommandRecv(w, false, bytes);
    assert OnEvent(w, e) == r;
    assert RunHandlers(w, [e]).0.log == r.0.log by {
      assert r.1 == Nothing ==> RunHandlers(r.0, []) == (r.0, Nothing);
    }
  }

  // ----- honest traffic: nothing is lost -----

  predicate HonestDevice(d: DeviceEvent) { d.Received? && !d.err ==> !UnknownReply(d.bytes) }

  /** The device sends only replies the server knows, and secondary threads answer. */
  predicate Honest(e: Event) {
    && Proper(e)
    && (e.DevicePoll? ==> forall d | d in e.es :: HonestDevice(d))
    && (e.ClientPoll? ==> !e.f.Failed?)
  }

  ghost predicate HonestLog(log: Log) {
    (forall h | h in log.fromDevice :: !UnknownReply(h.bytes)) && forall f | f in log.forwarded :: !f.f.Failed?
  }

  lemma EventHonest(w: World, e: DeviceEvent)
    requires HonestLog(w.log) && HonestDevice(e)
    ensures HonestLog(OnEvent(w, e).0.log)
  {
    hide Handlers, Frames.Parse, UnknownReply, ProcessRecv;
  }

  lemma {:induction false} HandlersHonest(w: World, es: seq<DeviceEvent>)
    requires HonestLog(w.log) && forall d | d in es :: HonestDevice(d)
    ensures HonestLog(RunHandlers(w, es).0.log)
    decreases |es|
  {
    hide HonestLog, HonestDevice, OnEvent;
    if es != [] && !w.fault {
      EventHonest(w, es[0]);
      var r := OnEvent(w, es[0]);
      if r.1 == Nothing { HandlersHonest(r.0, es[1..]); }
    }
  }

  lemma SendHonest(w: World)
    requires HonestLog(w.log) && w.queue != []
    ensures HonestLog(SendCommand(w).log)
  {
    hide UnknownReply;
  }

  lemma PollDeviceHonest(w: World, es: seq<DeviceEvent>, again: Reconnection)
    requires HonestLog(w.log) && forall d | d in es :: HonestDevice(d)
    ensures HonestLog(PollDevice(w, es, again).log)
  {
    hide HonestLog, HonestDevice, RunHandlers, AfterHandlers, SendCommand, ResetModule;
    HandlersHonest(w, es);
    if w.queue != [] {
      SendHonest(w);
      HandlersHonest(SendCommand(w), es);
    }
  }

  lemma ForwardHonest(w: World, code: Word32, f: Forwarding)
    requires HonestLog(w.log) && !f.Failed?
    ensures HonestLog(Forward(w, code, f).log)
  {
    hide UnknownReply, SendError, PassOn;
  }

  lemma PollClientHonest(w: World, m: Option<Message>, f: Forwarding)
    requires HonestLog(w.log) && !f.Failed?
    ensures HonestLog(PollClient(w, m, f).log)
  {
    hide HonestLog, SendError, SendResponse, Forwards, Forward, PixelRemainder;
    if m.Some? { ForwardHonest(Accept(w, m.value.code), m.value.code, f); }
  }

  lemma StepHonest(w: World, e: Event)
    requires HonestLog(w.log) && Honest(e)
    ensures HonestLog(Step(w, e).log)
  {
    hide HonestLog, HonestDevice, PollDevice, PollClient, ClearAnyClientRequest;
    match e
    case Stop =>
    case LoopTop =>
    case DevicePoll(es, again) => PollDeviceHonest(w, es, again);
    case ClientPoll(m, f) => PollClientHonest(w, m, f);
  }

  lemma {:induction false} RunHonest(attempted: bool, es: seq<Event>)
    requires forall e | e in es :: Honest(e)
    ensures HonestLog(Run(attempted, es).log)
  {
    if es != [] {
      hide HonestLog, Honest, Step;
      RunHonest(attempted, es[..|es| - 1]);
      StepHonest(Run(attempted, es[..|es| - 1]), es[|es| - 1]);
    }
  }

  lemma HonestKeeps(attempted: bool, es: seq<Event>, r: nat)
    requires forall e | e in es :: Honest(e)
    ensures !Lost(Run(attempted, es).log, r) && forall e | e in es :: Proper(e)
  {
    RunHonest(attempted, es);
    hide Run, UnknownReply;
  }

  /** When the server has stopped after honest traffic, request r is unanswered exactly when it is the last
      request of the client and its command is still queued and was never sent. */
  lemma StoppedAllAnswered(attempted: bool, es: seq<Event>, r: nat)
    requires (forall e | e in es :: Honest(e)) && !Run(attempted, es).fault
    requires Run(attempted, es).phase == Stopped && r < |Run(attempted, es).requests|
    ensures var w := Run(attempted, es);
      !Answered(w, r) <==> NeverSent(w, r)
  {
    HonestKeeps(attempted, es, r);
    StoppedExact(attempted, es, r);
    hide Run, Honest, Lost, Answered;
  }

  /** While it runs, the client manager is never up for replacement, and every request is answered or
      is the one that is queued or in flight. */
  lemma RunningNoneLost(attempted: bool, es: seq<Event>, r: nat)
    requires (forall e | e in es :: Honest(e)) && !Run(attempted, es).fault
    requires Run(attempted, es).phase != Stopped && r < |Run(attempted, es).requests|
    ensures var w := Run(attempted, es);
      && !w.shouldReset
      && (Answered(w, r) || (w.client.pending == Some(r) && |w.queue| == 1 && w.queue[0].sender == w.client.id))
  {
    var w := Run(attempted, es);
    HonestKeeps(attempted, es, r);
    if w.client.pending.Some? { HonestKeeps(attempted, es, w.client.pending.value); }
    RunAccounted(attempted, es);
    hide Run, Honest, Lost, Handlers, RepliesInOrder, Clean;
  }
}
