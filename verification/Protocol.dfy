/** The command protocol as a state machine: one client REP socket, one device socket, and the main
    loop between them.  Everything the outside world decides is in the events. */
module Protocol {
  import opened Words
  import opened Tables
  import Frames

  // ----- codes -----

  const INVALID_COMMAND_DATA: Word32 := 993
  const CANT_OPEN_FILE: Word32 := 994
  const THREAD_NOT_CONNECTED: Word32 := 995
  const THREAD_NOT_STARTED: Word32 := 996
  const ERROR_OCCURED: Word32 := 998
  const UNKNOWN_COMMAND: Word32 := 999

  predicate IsErrorCode(c: Word32) { 993 <= c <= 999 }

  function Handlers(): map<Word32, nat> { HANDLER_MAP }

  function Forwards(): map<Word32, (nat, Word32)> { COMMAND_MAP }

  predicate ForSecondaryThread(code: Word32) {
    501 <= code <= 503 || 600 <= code <= 604 || 700 <= code <= 702
  }

  lemma TablesAgree()
    ensures forall code | code in Forwards() ::
      && Forwards()[code].1 in Handlers() && Forwards()[code].0 <= 5
      && code <= 48 && code != SET_PIXEL_CONFIG
    ensures CMD_SET_PIXCONF in Handlers() && CMD_RESET_MODULE in Handlers()
    ensures forall cmd | cmd in Handlers() :: cmd < Frames.REPLY_BIT
  {
    HandlerCodes();
    forall code | code in Forwards()
      ensures Forwards()[code].1 in Handlers() && Forwards()[code].0 <= 5
      ensures code <= 48 && code != SET_PIXEL_CONFIG
    {
      ForwardsHandled(code);
    }
  }

  // ----- state -----

  datatype Command = Command(code: Word32, data: seq<Word32>, sender: nat)

  /** A client manager; `id` stands for its address.  A REP socket has to answer a request before it
      can receive the next one: `pending` is the request not answered yet. */
  datatype Client = Client(id: nat, closed: bool, pending: Option<nat>, lastCommand: Word32)

  datatype Request = Request(client: nat, code: Word32)

  datatype Reply = Reply(request: nat, words: seq<Word32>)

  /** The socket operation that is outstanding on the device side. */
  datatype Link = Connecting | Quiet | Sending | Reading | Stalled | Down

  datatype Phase = Top | DeviceTurn | ClientTurn | Stopped

  /** What went over the device's socket and to the other threads, with the request that was open then. */
  datatype Log = Log(toDevice: seq<seq<Byte>>, fromDevice: seq<Heard>, forwarded: seq<Forwarded>)

  datatype Heard = Heard(request: Option<nat>, bytes: seq<Byte>)

  datatype Forwarded = Forwarded(request: Option<nat>, f: Forwarding)

  /** How the call to a secondary thread ends. */
  datatype Forwarding = NotStarted | NotConnected | Failed | Answered(data: seq<Word32>) | RefusedWith(code: Word32)

  datatype World = World(
    connected: bool, executing: bool, lastSource: Option<nat>, queue: seq<Command>, link: Link,
    client: Client, shouldReset: bool, cancelled: bool, phase: Phase,
    requests: seq<Request>, replies: seq<Reply>, log: Log,
    fault: bool)  // a dangling client pointer, a send out of turn, or an access outside a buffer or table:
                  // what follows is not defined, and the model stops

  /** Nothing in the log is ever forgotten. */
  predicate Grows(l: Log, m: Log) {
    l.toDevice <= m.toDevice && l.fromDevice <= m.fromDevice && l.forwarded <= m.forwarded
  }

  // ----- replies to the client -----

  /** The words of a response: what both sendResponse functions build. */
  method SendData(lastCommand: Word32, data: seq<Word32>) returns (sendData: seq<Word32>)
    ensures sendData == [lastCommand] + data
  {
    sendData := [lastCommand];
    for ix := 0 to |data|
      invariant sendData == [lastCommand] + data[..ix]
    {
      sendData := sendData + [data[ix]];
    }
    assert data[..|data|] == data;
  }

  /** PythonConnectionManager::sendResponse, called through a pointer to client manager `to`. */
  function SendResponse(w: World, to: nat, data: seq<Word32>): (v: World)
    ensures v.log == w.log && v.queue == w.queue && v.requests == w.requests && v.client.id == w.client.id && v.link == w.link
  {
    if to != w.client.id || w.client.closed || w.client.pending.None? then w.(fault := true)
    else w.(client := w.client.(pending := None),
            replies := w.replies + [Reply(w.client.pending.value, [w.client.lastCommand] + data)])
  }

  function SendError(w: World, to: nat, code: Word32): (v: World)
    ensures v.log == w.log && v.queue == w.queue && v.requests == w.requests && v.client.id == w.client.id && v.link == w.link
  {
    if to != w.client.id then w.(fault := true)
    else SendResponse(w.(client := w.client.(lastCommand := code)), to, [])
  }

  function ClearAnyClientRequest(w: World): (v: World)
    ensures v.log == w.log && v.queue == w.queue && v.requests == w.requests && v.client.id == w.client.id && v.link == w.link
  {
    if w.lastSource.None? then w
    else SendError(w, w.lastSource.value, ERROR_OCCURED).(lastSource := None)
  }

  function TerminateConnection(w: World): World { w.(connected := false, link := Down) }

  // ----- the device side -----

  datatype DeviceEvent = Connected(ok: bool) | Sent | Received(err: bool, bytes: seq<Byte>)

  datatype Thrown = Nothing | SystemError | OtherError

  function PopFront(w: World): World {
    if w.queue == [] then w.(fault := true) else w.(queue := w.queue[1..])
  }

  /** The handler of a reply, genericHandler<sz>. */
  function AnswerClient(w: World, to: nat, code: Word32, data: seq<Word32>): (v: World)
    ensures v.log == w.log && v.queue == w.queue && v.requests == w.requests && v.client.id == w.client.id && v.link == w.link
  {
    if code !in Handlers() then w
    else if |data| != Handlers()[code] then SendError(w, to, INVALID_COMMAND_DATA)
    else SendResponse(w, to, data)
  }

  function ProcessRecv(w: World, code: Word32, data: seq<Word32>): (r: (World, Thrown))
    ensures r.0.log == w.log
  {
    if w.lastSource.None? then (w, OtherError)
    else (PopFront(AnswerClient(w, w.lastSource.value, code, data)).(executing := false, lastSource := None), Nothing)
  }

  function Hear(w: World, bytes: seq<Byte>): World {
    w.(log := w.log.(fromDevice := w.log.fromDevice + [Heard(w.client.pending, bytes)]))
  }

  function CommandRecv(w: World, err: bool, bytes: seq<Byte>): (r: (World, Thrown))
    ensures Grows(w.log, r.0.log)
  {
    if err then (w, SystemError)
    else match Frames.Parse(bytes)
      case Refused => (Hear(w, bytes).(link := Stalled), Nothing)
      case OutOfBounds => (Hear(w, bytes).(fault := true), Nothing)
      case Command(code, data) => ProcessRecv(Hear(w, bytes).(link := Quiet), code, data)
  }

  /** The completion handler of the outstanding operation; an event for another operation is no event. */
  function OnEvent(w: World, e: DeviceEvent): (r: (World, Thrown))
    ensures Grows(w.log, r.0.log)
  {
    match e
    case Connected(ok) =>
      if w.link != Connecting then (w, Nothing)
      else if !ok then (w, SystemError)
      else (w.(connected := true, executing := false, link := Quiet), Nothing)
    case Sent => if w.link != Sending then (w, Nothing) else (w.(link := Reading), Nothing)
    case Received(err, bytes) => if w.link != Reading then (w, Nothing) else CommandRecv(w, err, bytes)
  }

  /** mAsioIO->poll(): the completions that are ready, until one throws. */
  function RunHandlers(w: World, es: seq<DeviceEvent>): (r: (World, Thrown))
    ensures Grows(w.log, r.0.log)
    decreases |es|
  {
    if es == [] || w.fault then (w, Nothing)
    else
      var r := OnEvent(w, es[0]);
      if r.1 == Nothing then RunHandlers(r.0, es[1..]) else r
  }

  /** The front command's frame is copied to the command buffer, which it has to fit, and sent. */
  function SendCommand(w: World): (v: World)
    requires w.queue != []
    ensures Grows(w.log, v.log)
  {
    var frame := Frames.Frame(w.queue[0].code, w.queue[0].data);
    w.(executing := true, link := Sending, lastSource := Some(w.queue[0].sender),
       log := w.log.(toDevice := w.log.toDevice + [frame]), fault := w.fault || |frame| > Frames.TPX_BUFFER)
  }

  /** How connecting anew ends; Broken: connected, but the socket fails while old input is drained. */
  datatype Reconnection = Established | Broken | Unreachable

  /** The module reset: the connection is dropped, the client answered, and the device connected anew. */
  function ResetModule(w: World, to: nat, again: Reconnection): (v: World)
    ensures v.log == w.log
  {
    var v := PopFront(SendResponse(TerminateConnection(w), to, [])).(lastSource := None);
    match again
    case Established => v.(connected := true, executing := false, link := Quiet)
    case Broken => v.(connected := true, executing := false, link := Quiet, cancelled := true)
    case Unreachable => v.(cancelled := true)
  }

  function AfterHandlers(r: (World, Thrown)): (v: World)
    ensures v.log == r.0.log
  {
    if r.0.fault then r.0
    else match r.1
      case Nothing => r.0.(phase := ClientTurn)
      case SystemError => ClearAnyClientRequest(TerminateConnection(r.0).(cancelled := true)).(phase := ClientTurn)
      case OtherError => Shutdown(r.0.(cancelled := true))
  }

  /** TimepixConnectionManager::poll */
  function PollDevice(w: World, es: seq<DeviceEvent>, again: Reconnection): (v: World)
    ensures Grows(w.log, v.log)
  {
    if w.connected && !w.executing && w.queue != [] then
      var v := SendCommand(w);
      if v.fault then v
      else if w.queue[0].code == CMD_RESET_MODULE
      then ResetModule(v, w.queue[0].sender, again).(phase := ClientTurn)
      else AfterHandlers(RunHandlers(v, es))
    else AfterHandlers(RunHandlers(w, es))
  }

  // ----- the client side -----

  datatype Message = Message(code: Word32, data: seq<Word32>, ragged: bool)  // ragged: size not a multiple of 4

  function Queue(w: World, code: Word32, data: seq<Word32>): World {
    w.(queue := w.queue + [Command(code, data, w.client.id)])
  }

  /** forwardToSecondaryThread; the answer is what SecondaryThread::sendResponse or sendError sends. */
  function Forward(w: World, code: Word32, f: Forwarding): (v: World)
    ensures Grows(w.log, v.log)
  {
    var v := w.(log := w.log.(forwarded := w.log.forwarded + [Forwarded(w.client.pending, f)]));
    match f
    case NotStarted => SendError(v, v.client.id, THREAD_NOT_STARTED)
    case NotConnected => SendError(v, v.client.id, THREAD_NOT_CONNECTED)
    case Failed => v
    case Answered(data) => PassOn(v, [code] + data)
    case RefusedWith(c) => PassOn(v, [c])
  }

  function PassOn(w: World, words: seq<Word32>): (v: World)
    ensures v.log == w.log && v.queue == w.queue && v.requests == w.requests && v.client.id == w.client.id && v.link == w.link
  {
    if w.client.closed || w.client.pending.None? then w.(fault := true)
    else w.(client := w.client.(pending := None), replies := w.replies + [Reply(w.client.pending.value, words)])
  }

  /** (size - 1) % 48 on an unsigned 64-bit size */
  function PixelRemainder(size: nat): nat { (size + TWO_64 - 1) % TWO_64 % 48 }

  function HandleCommand(w: World, m: Message, f: Forwarding): (v: World)
    ensures Grows(w.log, v.log)
  {
    var me := w.client.id;
    if !w.connected then SendError(w, me, ERROR_OCCURED)
    else if m.ragged then SendError(w, me, INVALID_COMMAND_DATA)
    else if m.code in Forwards() || m.code == SET_PIXEL_CONFIG || m.code == SET_UDP_PORT then
      var v := w.(client := w.client.(lastCommand := m.code));
      if m.code == SET_PIXEL_CONFIG then
        if PixelRemainder(|m.data|) != 0 then SendError(v, me, INVALID_COMMAND_DATA) else Queue(v, CMD_SET_PIXCONF, m.data)
      else if m.code == SET_UDP_PORT then
        if |m.data| != 1 then SendError(v, me, INVALID_COMMAND_DATA) else SendResponse(v, me, [])
      else if |m.data| != Forwards()[m.code].0 then SendError(v, me, INVALID_COMMAND_DATA)
      else Queue(v, Forwards()[m.code].1, m.data)
    else if ForSecondaryThread(m.code) then Forward(w, m.code, f)
    else SendError(w, me, UNKNOWN_COMMAND)
  }

  /** PythonConnectionManager::poll; receiving while a request is unanswered throws, and the
      client manager closes its socket and asks to be replaced. */
  function PollClient(w: World, m: Option<Message>, f: Forwarding): (v: World)
    ensures Grows(w.log, v.log)
  {
    if w.client.pending.Some? then w.(client := w.client.(closed := true), shouldReset := true)
    else if m.None? then w
    else HandleCommand(w.(client := w.client.(pending := Some(|w.requests|)),
                          requests := w.requests + [Request(w.client.id, m.value.code)]), m.value, f)
  }

  // ----- the main loop -----

  function Shutdown(w: World): World { TerminateConnection(ClearAnyClientRequest(w)).(phase := Stopped) }

  function ReplaceClient(w: World): World {
    w.(client := Client(w.client.id + 1, false, None, ERROR_OCCURED), shouldReset := false)
  }

  /** Stop: somebody cancels the thread.  The others are the parts of one turn of the loop. */
  datatype Event = Stop | LoopTop | DevicePoll(es: seq<DeviceEvent>, again: Reconnection) | ClientPoll(m: Option<Message>, f: Forwarding)

  function Step(w: World, e: Event): (v: World)
    ensures Grows(w.log, v.log)
  {
    if w.fault then w
    else match e
      case Stop => w.(cancelled := true)
      case LoopTop =>
        if w.phase != Top then w
        else if w.cancelled then Shutdown(w)
        else (if w.shouldReset then ReplaceClient(w) else w).(phase := DeviceTurn)
      case DevicePoll(es, again) => if w.phase != DeviceTurn then w else PollDevice(w, es, again)
      case ClientPoll(m, f) =>
        if w.phase != ClientTurn then w
        else (if w.executing then w else PollClient(w, m, f)).(phase := Top)
  }

  /** At the start the device connection is being attempted, or that already failed. */
  function Start(attempted: bool): World {
    World(false, false, None, [], if attempted then Connecting else Down, Client(0, false, None, ERROR_OCCURED),
          false, !attempted, Top, [], [], Log([], [], []), false)
  }

  function Steps(w: World, es: seq<Event>): (v: World)
    ensures Grows(w.log, v.log)
  {
    if es == [] then w else Step(Steps(w, es[..|es| - 1]), es[|es| - 1])
  }

  function Run(attempted: bool, es: seq<Event>): World { Steps(Start(attempted), es) }

  /** One run after another. */
  lemma {:induction false} StepsConcat(w: World, a: seq<Event>, b: seq<Event>)
    ensures Steps(w, a + b) == Steps(Steps(w, a), b)
  {
    hide Step;
    if b == [] {
      assert a + b == a;
    } else {
      StepsConcat(w, a, b[..|b| - 1]);
      assert (a + b)[..|a + b| - 1] == a + b[..|b| - 1];
    }
  }
}
