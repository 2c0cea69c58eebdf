/** The objects of the command thread, updated in place: the device connection manager, the current
    client manager (a client manager's address is its number) and the main loop. */
module Comms {
  import opened Words
  import opened Protocol
  import opened Tables
  import ProtocolReplies
  import ProtocolSafety
  import Frames

  /** What the world does during one turn of the main loop. */
  datatype Turn = Turn(es: seq<DeviceEvent>, again: Reconnection, m: Option<Message>, f: Forwarding, stop: bool)

  /** Proper events; if benign, also honest and moderate ones. */
  ghost predicate Good(e: Event, benign: bool) {
    ProtocolSafety.Proper(e) && (benign ==> ProtocolReplies.Honest(e) && ProtocolSafety.Moderate(e))
  }

  ghost predicate GoodTurn(t: Turn, benign: bool) {
    Good(DevicePoll(t.es, t.again), benign) && Good(ClientPoll(t.m, t.f), benign)
  }

  ghost predicate GoodTrace(es: seq<Event>, benign: bool) { forall e | e in es :: Good(e, benign) }

  lemma GoodMore(es: seq<Event>, e: Event, benign: bool)
    requires GoodTrace(es, benign) && Good(e, benign)
    ensures GoodTrace(es + [e], benign)
  {
    hide Good;
  }

  lemma GoodLoop(benign: bool)
    ensures Good(LoopTop, benign) && Good(Stop, benign)
  {
  }

  /** Request r was answered, unless it was lost or its command was never sent. */
  ghost predicate Accounted(w: World, r: nat) {
    !ProtocolReplies.Answered(w, r) <==> ProtocolReplies.Lost(w.log, r) || ProtocolReplies.NeverSent(w, r)
  }

  lemma RunStep(attempted: bool, es: seq<Event>, e: Event)
    ensures Run(attempted, es + [e]) == Step(Run(attempted, es), e)
  {
    hide Step;
    assert (es + [e])[..|es|] == es;
  }

  class CommsThread {
    // TimepixConnectionManager
    var isConnected: bool
    var isExecutingCommand: bool
    var lastCommandSource: Option<nat>
    var queuedCommands: seq<Command>
    var link: Link
    const commandBuffer: array<Byte>
    // PythonConnectionManager
    var clientId: nat
    var socketClosed: bool
    var unanswered: Option<nat>
    var lastCommand: Word32
    // CommsThread
    var shouldResetClient: bool
    var shouldCancel: bool
    var phase: Phase
    // what went over the sockets
    ghost var requests: seq<Request>
    ghost var replies: seq<Reply>
    ghost var log: Log
    var fault: bool  // something undefined was done, and the model stops
    var received: nat  // |requests|

    ghost const attempted: bool
    ghost var trace: seq<Event>

    ghost function W(): World
      reads this
    {
      World(isConnected, isExecutingCommand, lastCommandSource, queuedCommands, link,
            Client(clientId, socketClosed, unanswered, lastCommand), shouldResetClient, shouldCancel, phase,
            requests, replies, log, fault)
    }

    /** The fields are what the state machine reaches by the events so far. */
    ghost predicate Valid()
      reads this
    {
      W() == Run(attempted, trace) && received == |requests| && commandBuffer.Length == Frames.TPX_BUFFER
    }

    constructor (connecting: bool)
      ensures Valid() && trace == [] && attempted == connecting && fresh(commandBuffer)
    {
      isConnected, isExecutingCommand, lastCommandSource, queuedCommands := false, false, None, [];
      link := if connecting then Connecting else Down;
      clientId, socketClosed, unanswered, lastCommand := 0, false, None, ERROR_OCCURED;
      shouldResetClient, shouldCancel, phase := false, !connecting, Top;
      requests, replies, log, fault, received := [], [], Log([], [], []), false, 0;
      commandBuffer := new Byte[Frames.TPX_BUFFER];
      attempted, trace := connecting, [];
    }

    // ----- PythonConnectionManager -----

    method SendResponse(to: nat, data: seq<Word32>)
      modifies this`unanswered, this`replies, this`fault
      ensures W() == Protocol.SendResponse(old(W()), to, data)
    {
      if to != clientId || socketClosed || unanswered.None? {
        fault := true;
      } else {
        var sendData := SendData(lastCommand, data);
        replies := replies + [Reply(unanswered.value, sendData)];
        unanswered := None;
      }
    }

    method SendError(to: nat, code: Word32)
      modifies this`unanswered, this`replies, this`fault, this`lastCommand
      ensures W() == Protocol.SendError(old(W()), to, code)
    {
      hide Protocol.SendResponse;
      if to != clientId {
        fault := true;
      } else {
        lastCommand := code;
        SendResponse(to, []);
      }
    }

    /** genericForward, or the queueing half of sendPixelConfigData. */
    method QueueCommand(command: Word32, data: seq<Word32>)
      modifies this`queuedCommands
      ensures W() == Queue(old(W()), command, data)
    {
      queuedCommands := queuedCommands + [Command(command, data, clientId)];
    }

    method ForwardToSecondaryThread(code: Word32, f: Forwarding)
      modifies this`unanswered, this`replies, this`fault, this`lastCommand, this`log
      ensures W() == Forward(old(W()), code, f)
    {
      log := log.(forwarded := log.forwarded + [Forwarded(unanswered, f)]);
      match f {
        case NotStarted => SendError(clientId, THREAD_NOT_STARTED);
        case NotConnected => SendError(clientId, THREAD_NOT_CONNECTED);
        case Failed =>
        case Answered(data) => PassOnReply([code] + data);
        case RefusedWith(c) => PassOnReply([c]);
      }
    }

    method PassOnReply(words: seq<Word32>)
      modifies this`unanswered, this`replies, this`fault
      ensures W() == PassOn(old(W()), words)
    {
      if socketClosed || unanswered.None? {
        fault := true;
      } else {
        replies := replies + [Reply(unanswered.value, words)];
        unanswered := None;
      }
    }

    method HandleCommand(m: Message, f: Forwarding)
      modifies this`unanswered, this`replies, this`fault, this`lastCommand, this`queuedCommands, this`log
      ensures W() == Protocol.HandleCommand(old(W()), m, f)
    {
      hide Forwards, Forward, Protocol.SendError, Protocol.SendResponse;
      if !isConnected {
        SendError(clientId, ERROR_OCCURED);
      } else if m.ragged {
        SendError(clientId, INVALID_COMMAND_DATA);
      } else if m.code in Forwards() || m.code == SET_PIXEL_CONFIG || m.code == SET_UDP_PORT {
        lastCommand := m.code;
        if m.code == SET_PIXEL_CONFIG {
          if PixelRemainder(|m.data|) != 0 {
            SendError(clientId, INVALID_COMMAND_DATA);
          } else {
            QueueCommand(CMD_SET_PIXCONF, m.data);
          }
        } else if m.code == SET_UDP_PORT {
          if |m.data| != 1 {
            SendError(clientId, INVALID_COMMAND_DATA);
          } else {
            SendResponse(clientId, []);
          }
        } else if |m.data| != Forwards()[m.code].0 {
          SendError(clientId, INVALID_COMMAND_DATA);
        } else {
          QueueCommand(Forwards()[m.code].1, m.data);
        }
      } else if ForSecondaryThread(m.code) {
        ForwardToSecondaryThread(m.code, f);
      } else {
        SendError(clientId, UNKNOWN_COMMAND);
      }
    }

    // ----- TimepixConnectionManager -----

    method TerminateConnection()
      modifies this`isConnected, this`link
      ensures W() == Protocol.TerminateConnection(old(W()))
    {
      isConnected, link := false, Down;
    }

    method ClearAnyClientRequest()
      modifies this`unanswered, this`replies, this`fault, this`lastCommand, this`lastCommandSource
      ensures W() == Protocol.ClearAnyClientRequest(old(W()))
    {
      if lastCommandSource.Some? {
        SendError(lastCommandSource.value, ERROR_OCCURED);
        lastCommandSource := None;
      }
    }

    method PopCommand()
      modifies this`queuedCommands, this`fault
      ensures W() == PopFront(old(W()))
    {
      if queuedCommands == [] {
        fault := true;
      } else {
        queuedCommands := queuedCommands[1..];
      }
    }

    method ProcessRecv(code: Word32, data: seq<Word32>) returns (thrown: Thrown)
      modifies this`unanswered, this`replies, this`fault, this`lastCommand, this`lastCommandSource, this`queuedCommands,
        this`isExecutingCommand
      ensures (W(), thrown) == Protocol.ProcessRecv(old(W()), code, data)
    {
      hide Handlers;
      if lastCommandSource.None? {
        return OtherError;
      }
      if code in Handlers() {
        if |data| != Handlers()[code] {
          SendError(lastCommandSource.value, INVALID_COMMAND_DATA);
        } else {
          SendResponse(lastCommandSource.value, data);
        }
      }
      PopCommand();
      isExecutingCommand, lastCommandSource := false, None;
      thrown := Nothing;
    }

    method CommandRecv(err: bool, bytes: seq<Byte>) returns (thrown: Thrown)
      modifies this`unanswered, this`replies, this`fault, this`lastCommand, this`lastCommandSource, this`queuedCommands,
        this`isExecutingCommand, this`link, this`log
      ensures (W(), thrown) == Protocol.CommandRecv(old(W()), err, bytes)
    {
      hide Frames.Parse, Protocol.ProcessRecv;
      if err {
        return SystemError;
      }
      log := log.(fromDevice := log.fromDevice + [Heard(unanswered, bytes)]);
      var parsed := Frames.ReadReply(bytes);
      thrown := Nothing;
      match parsed {
        case Refused => link := Stalled;
        case OutOfBounds => fault := true;
        case Command(code, data) =>
          link := Quiet;
          thrown := ProcessRecv(code, data);
      }
    }

    /** One completion handler: initializeConnection, commandSent or commandRecv. */
    method Complete(e: DeviceEvent) returns (thrown: Thrown)
      modifies this`unanswered, this`replies, this`fault, this`lastCommand, this`lastCommandSource, this`queuedCommands,
        this`isExecutingCommand, this`isConnected, this`link, this`log
      ensures (W(), thrown) == OnEvent(old(W()), e)
    {
      hide Protocol.CommandRecv;
      thrown := Nothing;
      match e {
        case Connected(ok) =>
          if link == Connecting {
            if !ok {
              return SystemError;
            }
            isConnected, isExecutingCommand, link := true, false, Quiet;
          }
        case Sent =>
          if link == Sending {
            link := Reading;
          }
        case Received(err, bytes) =>
          if link == Reading {
            thrown := CommandRecv(err, bytes);
          }
      }
    }

    /** mAsioIO->poll() */
    method PollSockets(es: seq<DeviceEvent>) returns (thrown: Thrown)
      modifies this`unanswered, this`replies, this`fault, this`lastCommand, this`lastCommandSource, this`queuedCommands,
        this`isExecutingCommand, this`isConnected, this`link, this`log
      ensures (W(), thrown) == RunHandlers(old(W()), es)
    {
      hide OnEvent;
      thrown := Nothing;
      var i := 0;
      while i < |es| && thrown == Nothing && !fault
        invariant i <= |es|
        invariant RunHandlers(old(W()), es) == if thrown == Nothing then RunHandlers(W(), es[i..]) else (W(), thrown)
      {
        thrown := Complete(es[i]);
        i := i + 1;
      }
    }

    /** The client is answered before the connection comes back. */
    method DropAndAnswer(to: nat)
      modifies this`unanswered, this`replies, this`fault, this`lastCommandSource, this`queuedCommands,
        this`isConnected, this`link
      ensures W() == PopFront(Protocol.SendResponse(Protocol.TerminateConnection(old(W())), to, [])).(lastSource := None)
    {
      hide PopFront, Protocol.SendResponse, Protocol.TerminateConnection;
      TerminateConnection();
      SendResponse(to, []);
      PopCommand();
      lastCommandSource := None;
    }

    /** The branch of TimepixConnectionManager::poll for a module reset. */
    method ResetModule(to: nat, again: Reconnection)
      modifies this`unanswered, this`replies, this`fault, this`lastCommandSource, this`queuedCommands,
        this`isExecutingCommand, this`isConnected, this`link, this`shouldCancel
      ensures W() == Protocol.ResetModule(old(W()), to, again)
    {
      hide PopFront, Protocol.SendResponse, Protocol.TerminateConnection;
      DropAndAnswer(to);
      if !again.Unreachable? {
        isConnected, isExecutingCommand, link := true, false, Quiet;
      }
      if !again.Established? {
        shouldCancel := true;
      }
    }

    /** The catch clauses of TimepixConnectionManager::poll and of the main loop. */
    method Recover(thrown: Thrown)
      modifies this`unanswered, this`replies, this`fault, this`lastCommand, this`lastCommandSource, this`isConnected,
        this`link, this`shouldCancel, this`phase
      ensures W() == AfterHandlers((old(W()), thrown)) && (fault || phase == ClientTurn || phase == Stopped)
    {
      hide Protocol.ClearAnyClientRequest;
      if fault {
        return;
      }
      match thrown {
        case Nothing => phase := ClientTurn;
        case SystemError =>
          TerminateConnection();
          shouldCancel := true;
          ClearAnyClientRequest();
          phase := ClientTurn;
        case OtherError =>
          shouldCancel := true;
          Finish();
      }
    }

    /** The message is built and copied to the command buffer, if it fits: these are the bytes to send. */
    method FillCommandBuffer(command: Word32, data: seq<Word32>) returns (bytes: seq<Byte>)
      requires commandBuffer.Length == Frames.TPX_BUFFER
      modifies this`fault, commandBuffer
      ensures bytes == Frames.Frame(command, data)
      ensures if |bytes| <= Frames.TPX_BUFFER then bytes == commandBuffer[..|bytes|] && fault == old(fault) else fault
    {
      hide Frames.Frame;
      bytes := Frames.BuildCommand(command, data);
      if |bytes| > commandBuffer.Length {
        fault := true;
      } else {
        Frames.CopyInto(commandBuffer, bytes);
      }
    }

    method SendCommand()
      requires queuedCommands != [] && commandBuffer.Length == Frames.TPX_BUFFER
      modifies this`isExecutingCommand, this`link, this`lastCommandSource, this`log, this`fault, commandBuffer
      ensures W() == Protocol.SendCommand(old(W()))
    {
      hide Frames.Frame;
      var next := queuedCommands[0];
      var bytes := FillCommandBuffer(next.code, next.data);
      isExecutingCommand, link, lastCommandSource := true, Sending, Some(next.sender);
      log := log.(toDevice := log.toDevice + [bytes]);
    }

    /** TimepixConnectionManager::poll */
    method Poll(es: seq<DeviceEvent>, again: Reconnection)
      requires commandBuffer.Length == Frames.TPX_BUFFER
      modifies this`unanswered, this`replies, this`fault, this`lastCommand, this`lastCommandSource, this`queuedCommands,
        this`isExecutingCommand, this`isConnected, this`link, this`shouldCancel, this`phase, this`log, commandBuffer
      ensures W() == Protocol.PollDevice(old(W()), es, again) && (fault || phase == ClientTurn || phase == Stopped)
    {
      hide RunHandlers, Protocol.ResetModule, AfterHandlers, Protocol.SendCommand;
      if isConnected && !isExecutingCommand && queuedCommands != [] {
        var next := queuedCommands[0];
        SendCommand();
        if fault {
          return;
        }
        if next.code == CMD_RESET_MODULE {
          ResetModule(next.sender, again);
          phase := ClientTurn;
          return;
        }
      }
      var thrown := PollSockets(es);
      Recover(thrown);
    }

    /** What follows the main loop. */
    method Finish()
      modifies this`unanswered, this`replies, this`fault, this`lastCommand, this`lastCommandSource, this`isConnected,
        this`link, this`phase
      ensures W() == Shutdown(old(W())) && phase == Stopped
    {
      hide Protocol.ClearAnyClientRequest;
      ClearAnyClientRequest();
      TerminateConnection();
      phase := Stopped;
    }

    /** PythonConnectionManager::poll */
    method PollRequests(m: Option<Message>, f: Forwarding)
      requires received == |requests|
      modifies this`unanswered, this`replies, this`fault, this`lastCommand, this`queuedCommands, this`socketClosed,
        this`shouldResetClient, this`received, this`requests, this`log
      ensures W() == Protocol.PollClient(old(W()), m, f) && received == |requests|
    {
      hide Protocol.HandleCommand;
      if unanswered.Some? {
        socketClosed, shouldResetClient := true, true;
      } else if m.Some? {
        unanswered, received := Some(received), received + 1;
        requests := requests + [Request(clientId, m.value.code)];
        HandleCommand(m.value, f);
      }
    }

    // ----- the main loop: each part extends the run -----

    method PollDevice(es: seq<DeviceEvent>, again: Reconnection)
      requires Valid() && phase == DeviceTurn && !fault
      modifies this, commandBuffer
      ensures Valid() && trace == old(trace) + [DevicePoll(es, again)]
      ensures fault || phase == ClientTurn || phase == Stopped
    {
      hide Run, Protocol.PollDevice;
      Poll(es, again);
      RunStep(attempted, trace, DevicePoll(es, again));
      trace := trace + [DevicePoll(es, again)];
    }

    /** The client is polled unless a command is executing. */
    method PollClient(m: Option<Message>, f: Forwarding)
      requires Valid() && phase == ClientTurn && !fault
      modifies this
      ensures Valid() && trace == old(trace) + [ClientPoll(m, f)] && phase == Top
    {
      hide Run, Protocol.PollClient;
      if !isExecutingCommand {
        PollRequests(m, f);
      }
      phase := Top;
      RunStep(attempted, trace, ClientPoll(m, f));
      trace := trace + [ClientPoll(m, f)];
    }

    method ReplaceClient()
      modifies this`clientId, this`socketClosed, this`unanswered, this`lastCommand, this`shouldResetClient
      ensures W() == Protocol.ReplaceClient(old(W()))
    {
      clientId, socketClosed, unanswered, lastCommand := clientId + 1, false, None, ERROR_OCCURED;
      shouldResetClient := false;
    }

    /** The client manager is replaced if it asked for it, and the turn begins. */
    method BeginTurn()
      modifies this`clientId, this`socketClosed, this`unanswered, this`lastCommand, this`shouldResetClient, this`phase
      ensures W() == (if old(shouldResetClient) then Protocol.ReplaceClient(old(W())) else old(W())).(phase := DeviceTurn)
    {
      hide Protocol.ReplaceClient;
      if shouldResetClient {
        ReplaceClient();
      }
      phase := DeviceTurn;
    }

    method LoopHead()
      requires Valid() && phase == Top && !fault
      modifies this
      ensures Valid() && trace == old(trace) + [LoopTop]
      ensures phase == if old(shouldCancel) then Stopped else DeviceTurn
    {
      hide Run, Shutdown, Protocol.ReplaceClient;
      if shouldCancel {
        Finish();
      } else {
        BeginTurn();
      }
      RunStep(attempted, trace, LoopTop);
      trace := trace + [LoopTop];
    }

    method Cancel()
      requires Valid() && !fault
      modifies this
      ensures Valid() && trace == old(trace) + [Stop] && phase == old(phase) && shouldCancel && !fault
    {
      hide Run;
      trace := trace + [Stop];
      RunStep(attempted, old(trace), Stop);
      shouldCancel := true;
    }

    /** One turn of the loop. */
    method TakeTurn(t: Turn, ghost benign: bool)
      requires Valid() && phase == Top && !fault && GoodTurn(t, benign) && GoodTrace(trace, benign)
      modifies this, commandBuffer
      ensures Valid() && GoodTrace(trace, benign) && (fault || phase == Top || phase == Stopped)
    {
      hide Run, Good, GoodTrace, GoodTurn;
      GoodLoop(benign);
      GoodParts(t, benign);
      GoodMore(trace, LoopTop, benign);
      LoopHead();
      if phase == DeviceTurn && !fault {
        GoodMore(trace, DevicePoll(t.es, t.again), benign);
        PollDevice(t.es, t.again);
        if phase == ClientTurn && !fault {
          GoodMore(trace, ClientPoll(t.m, t.f), benign);
          PollClient(t.m, t.f);
        }
      }
      if t.stop && !fault {
        GoodMore(trace, Stop, benign);
        Cancel();
      }
    }

    /** CommsThread::execute for one turn of the world after another, with a stop request in some turn or
        in the end: the loop ends with everything shut down and every request accounted for, unless a frame
        was sent or received that leads outside a buffer or table. */
    method Execute(turns: seq<Turn>, ghost benign: bool)
      requires Valid() && phase == Top && !fault && trace == []
      requires forall t | t in turns :: GoodTurn(t, benign)
      modifies this, commandBuffer
      ensures Valid() && GoodTrace(trace, benign)
      ensures fault <==> !ProtocolSafety.Clean(log)
      ensures !fault ==> phase == Stopped && !isConnected && lastCommandSource == None && |queuedCommands| <= 1
      ensures !fault ==> forall r: nat | r < |requests| :: Accounted(W(), r)
      ensures benign ==> !fault && forall r: nat | r < |requests| :: !ProtocolReplies.Lost(log, r)
    {
      hide Run, Good, GoodTurn;
      var i := 0;
      while i < |turns| && phase == Top && !fault
        invariant i <= |turns| && Valid() && GoodTrace(trace, benign) && (fault || phase == Top || phase == Stopped)
      {
        TakeTurn(turns[i], benign);
        i := i + 1;
      }
      if phase == Top && !fault {
        GoodLoop(benign);
        GoodMore(trace, Stop, benign);
        Cancel();
        GoodMore(trace, LoopTop, benign);
        LoopHead();
      }
      Outcome(attempted, trace, benign);
    }
  }

  lemma GoodParts(t: Turn, benign: bool)
    requires GoodTurn(t, benign)
    ensures Good(DevicePoll(t.es, t.again), benign) && Good(ClientPoll(t.m, t.f), benign)
  {
  }

  /** What every run gives that ended, one way or the other. */
  lemma Outcome(attempted: bool, es: seq<Event>, benign: bool)
    requires GoodTrace(es, benign)
    ensures var w := Run(attempted, es);
      && (w.fault <==> !ProtocolSafety.Clean(w.log)) && (benign ==> !w.fault)
      && (!w.fault && w.phase == Stopped ==>
            && !w.connected && w.lastSource == None && |w.queue| <= 1
            && forall r: nat | r < |w.requests| :: Accounted(w, r) && (benign ==> !ProtocolReplies.Lost(w.log, r)))
  {
    hide Run, ProtocolSafety.RepliesInOrder, ProtocolSafety.Clean, ProtocolReplies.Lost, ProtocolReplies.Answered, Handlers,
      ProtocolSafety.Proper, ProtocolSafety.Moderate, ProtocolReplies.Honest;
    var w := Run(attempted, es);
    ProtocolSafety.RunSafe(attempted, es);
    if benign { ProtocolSafety.ModerateSafe(attempted, es); }
    if !w.fault && w.phase == Stopped {
      forall r: nat | r < |w.requests|
        ensures Accounted(w, r)
        ensures benign ==> !ProtocolReplies.Lost(w.log, r)
      {
        ProtocolReplies.StoppedExact(attempted, es, r);
        if benign { ProtocolReplies.HonestKeeps(attempted, es, r); }
      }
    }
  }
}
