/** What the client is told in the cases that do not wait for the device, and when the device fails. */
module ProtocolAnswers {
  import opened Words
  import opened Protocol
  import opened ProtocolSafety
  import opened ProtocolService
  import opened Tables
  import ProtocolReplies
  import Frames

  // ----- requests that are answered at once -----

  /** The request was received and answered with these words, and nothing else happened. */
  ghost predicate Told(w: World, v: World, code: Word32, words: seq<Word32>) {
    v == w.(requests := w.requests + [Request(w.client.id, code)], replies := w.replies + [Reply(|w.requests|, words)],
            client := w.client.(lastCommand := v.client.lastCommand), log := v.log, phase := Top)
  }

  /** The client's turn, with no request open. */
  ghost predicate Listening(w: World) {
    Inv(w) && w.phase == ClientTurn && !w.executing && w.client.pending.None?
  }

  lemma ReplyTold(w: World, code: Word32, data: seq<Word32>)
    requires Listening(w)
    ensures var v := Accept(w, code);
      Told(w, SendResponse(v.(client := v.client.(lastCommand := code)), w.client.id, data).(phase := Top), code, [code] + data)
  {
    hide Handlers, RepliesInOrder, Clean, Idle, Waiting, InFlight, Dead;
  }

  lemma ErrorTold(w: World, code: Word32, last: Word32, err: Word32)
    requires Listening(w)
    ensures var v := Accept(w, code);
      Told(w, SendError(v.(client := v.client.(lastCommand := last)), w.client.id, err).(phase := Top), code, [err])
  {
    hide Handlers, RepliesInOrder, Clean, Idle, Waiting, InFlight, Dead;
    assert [err] + [] == [err];
  }

  lemma Handling(w: World, m: Message, f: Forwarding)
    requires Listening(w)
    ensures Step(w, ClientPoll(Some(m), f)) == HandleCommand(Accept(w, m.code), m, f).(phase := Top)
  {
    hide HandleCommand, Handlers, RepliesInOrder, Clean, Idle, Waiting, InFlight, Dead;
  }

  lemma ReadyListens(w: World)
    requires Ready(w)
    ensures Listening(w) && w.connected && !w.client.closed
  {
    hide Handlers, RepliesInOrder, Clean, Waiting, InFlight, Dead;
  }

  /** Before the device is connected, and after the connection is gone, every request gets error 998. */
  lemma NotConnected(w: World, m: Message, f: Forwarding)
    requires Listening(w) && !w.connected
    ensures var v := Step(w, ClientPoll(Some(m), f)); Told(w, v, m.code, [998]) && v.log == w.log
  {
    hide SendError, Inv;
    Handling(w, m, f);
    ErrorTold(w, m.code, w.client.lastCommand, 998);
    SameName(w, m.code);
  }

  lemma SameName(w: World, code: Word32)
    ensures var v := Accept(w, code); v.(client := v.client.(lastCommand := w.client.lastCommand)) == v
  {
  }

  lemma RefusedAtOnce(w: World, m: Message, f: Forwarding)
    requires Listening(w) && w.connected
    ensures var v := HandleCommand(Accept(w, m.code), m, f).(phase := Top);
      && (m.ragged ==> Told(w, v, m.code, [993]) && v.log == w.log)
      && (!m.ragged && m.code !in Forwards() && m.code != 40 && m.code != 500 && !ForSecondaryThread(m.code) ==>
            Told(w, v, m.code, [999]) && v.log == w.log)
  {
    hide SendError, Inv, Forwards, Told;
    ErrorTold(w, m.code, w.client.lastCommand, 993);
    ErrorTold(w, m.code, w.client.lastCommand, 999);
    SameName(w, m.code);
  }

  lemma PortAtOnce(w: World, m: Message, f: Forwarding)
    requires Listening(w) && w.connected && !m.ragged && m.code == 500
    ensures var v := HandleCommand(Accept(w, m.code), m, f).(phase := Top);
      Told(w, v, m.code, if |m.data| == 1 then [500] else [993]) && v.log == w.log
  {
    hide SendError, SendResponse, Inv, Forwards, Told;
    ErrorTold(w, m.code, m.code, 993);
    ReplyTold(w, m.code, []);
    assert [m.code] + [] == [m.code];
  }

  lemma SizeAtOnce(w: World, m: Message, f: Forwarding)
    requires Listening(w) && w.connected && !m.ragged && |m.data| < TWO_64
    requires (m.code == 40 && |m.data| % 48 != 1) || (m.code in Forwards() && |m.data| != Forwards()[m.code].0)
    ensures var v := HandleCommand(Accept(w, m.code), m, f).(phase := Top);
      Told(w, v, m.code, [993]) && v.log == w.log
  {
    hide SendError, SendResponse, Inv, Forwards, Told, PixelRemainder;
    TablesAgree();
    PixelSizes(|m.data|);
    ErrorTold(w, m.code, m.code, 993);
  }

  /** With the device connected: which requests are answered at once, and the exact words.  993: a ragged message or
      a wrong number of words; 999: a code that is in no table; setting the UDP port is confirmed. */
  lemma AnsweredAtOnce(w: World, m: Message, f: Forwarding)
    requires Ready(w) && |m.data| < TWO_64
    ensures var v := Step(w, ClientPoll(Some(m), f));
      && (m.ragged ==> Told(w, v, m.code, [993]) && v.log == w.log)
      && (!m.ragged && m.code == 500 ==> Told(w, v, m.code, if |m.data| == 1 then [500] else [993]) && v.log == w.log)
      && (!m.ragged && m.code == 40 && |m.data| % 48 != 1 ==> Told(w, v, m.code, [993]) && v.log == w.log)
      && (!m.ragged && m.code in Forwards() && |m.data| != Forwards()[m.code].0 ==>
            Told(w, v, m.code, [993]) && v.log == w.log)
      && (!m.ragged && m.code !in Forwards() && m.code != 40 && m.code != 500 && !ForSecondaryThread(m.code) ==>
            Told(w, v, m.code, [999]) && v.log == w.log)
  {
    hide Told, HandleCommand, Ready, Listening, Step, Forwards, ForSecondaryThread;
    ReadyListens(w);
    Handling(w, m, f);
    RefusedAtOnce(w, m, f);
    if !m.ragged {
      if m.code == 500 {
        PortAtOnce(w, m, f);
      }
      if (m.code == 40 && |m.data| % 48 != 1) || (m.code in Forwards() && |m.data| != Forwards()[m.code].0) {
        SizeAtOnce(w, m, f);
      }
    }
  }

  /** A request for another thread: the client gets that thread's words unchanged, 996 if it was not started, 995 if
      it is not connected; if the call throws the request stays open. */
  lemma ForwardedAtOnce(w: World, m: Message, f: Forwarding)
    requires Ready(w) && ForSecondaryThread(m.code) && !m.ragged
    ensures var v := Step(w, ClientPoll(Some(m), f));
      && v.log == w.log.(forwarded := w.log.forwarded + [Forwarded(Some(|w.requests|), f)])
      && (f.NotStarted? ==> Told(w, v, m.code, [996]))
      && (f.NotConnected? ==> Told(w, v, m.code, [995]))
      && (f.Answered? ==> Told(w, v, m.code, [m.code] + f.data))
      && (f.RefusedWith? ==> Told(w, v, m.code, [f.code]))
      && (f.Failed? ==> v == Accept(w, m.code).(log := v.log, phase := Top))
  {
    hide Inv, Handlers, Forwards, Idle, ForSecondaryThread, Ready;
    ReadyListens(w);
    Handling(w, m, f);
    NoTable(m.code);
    assert [996] + [] == [996] && [995] + [] == [995];
  }

  /** The codes for other threads are in neither table. */
  lemma NoTable(code: Word32)
    requires ForSecondaryThread(code)
    ensures code !in Forwards() && code != SET_PIXEL_CONFIG && code != SET_UDP_PORT
  {
    hide Forwards;
    TablesAgree();
  }

  // ----- when the device fails -----

  /** The first completion that counts decides the poll if it throws or nothing else is ready for its outcome. */
  lemma OneCounts(w: World, x: seq<DeviceEvent>, e: DeviceEvent, y: seq<DeviceEvent>)
    requires !w.fault && RunHandlers(w, x) == (w, Nothing)
    ensures var r := OnEvent(w, e);
      RunHandlers(w, x + [e] + y) == if r.1 == Nothing then RunHandlers(r.0, y) else r
  {
    hide OnEvent;
    assert x + ([e] + y) == x + [e] + y;
    HandlersConcat(w, x, [e] + y);
    assert ([e] + y)[0] == e && ([e] + y)[1..] == y;
  }

  /** With the connection gone the client is not polled any more, and the loop ends. */
  lemma EndsAfter(v: World, m: Option<Message>, f: Forwarding)
    requires !v.fault && v.executing && v.cancelled && v.lastSource == None && !v.connected && v.link == Down
    requires v.phase == ClientTurn
    ensures Step(Step(v, ClientPoll(m, f)), LoopTop) == v.(phase := Stopped)
  {
  }

  /** A network error while a reply is awaited: the client gets error 998, the connection is dropped, and the loop
      ends after this turn. */
  lemma NetworkError(w: World, x: seq<DeviceEvent>, bytes: seq<Byte>, y: seq<DeviceEvent>, again: Reconnection,
                     m: Option<Message>, f: Forwarding)
    requires Inv(w) && InFlight(w) && w.link == Reading && w.phase == DeviceTurn
    requires forall d | d in x :: Without(d, false)
    ensures var v := Step(w, DevicePoll(x + [Received(true, bytes)] + y, again));
      && v == w.(client := w.client.(pending := None, lastCommand := 998),
                 replies := w.replies + [Reply(w.client.pending.value, [998])],
                 connected := false, link := Down, cancelled := true, lastSource := None, phase := ClientTurn)
      && Step(Step(v, ClientPoll(m, f)), LoopTop) == v.(phase := Stopped)
  {
    hide Handlers, RepliesInOrder, Clean, RunHandlers;
    NoEvents(w, x);
    OneCounts(w, x, Received(true, bytes), y);
    LaterPoll(w, x + [Received(true, bytes)] + y, again);
    assert [998] + [] == [998];
    var v := Step(w, DevicePoll(x + [Received(true, bytes)] + y, again));
    hide Step;
    EndsAfter(v, m, f);
  }

  /** The connection attempt fails: the loop ends after this turn, and a request in it gets error 998. */
  lemma ConnectFails(w: World, x: seq<DeviceEvent>, y: seq<DeviceEvent>, again: Reconnection, m: Message, f: Forwarding)
    requires Inv(w) && Idle(w) && w.link == Connecting && w.phase == DeviceTurn && w.client.pending.None?
    requires forall d | d in x :: !d.Connected?
    ensures var v := Step(w, DevicePoll(x + [Connected(false)] + y, again));
      && v == w.(link := Down, cancelled := true, phase := ClientTurn)
      && Told(v, Step(v, ClientPoll(Some(m), f)), m.code, [998])
      && Step(Step(v, ClientPoll(Some(m), f)), LoopTop).phase == Stopped
  {
    hide Handlers, RepliesInOrder, Clean, RunHandlers;
    NoEvents(w, x);
    OneCounts(w, x, Connected(false), y);
    var v := Step(w, DevicePoll(x + [Connected(false)] + y, again));
    SameReplies(w, v);
    NotConnected(v, m, f);
    hide Step, Told;
    StopsNext(Step(v, ClientPoll(Some(m), f)));
  }

  lemma StopsNext(w: World)
    requires w.cancelled && w.phase == Top && !w.fault
    ensures Step(w, LoopTop).phase == Stopped
  {
    hide ClearAnyClientRequest;
  }

  /** No connection is attempted: the loop ends at once. */
  lemma NotAttempted()
    ensures Step(Start(false), LoopTop).phase == Stopped
  {
  }

  /** A refused frame: the device is not read any more. */
  lemma RefusedStalls(w: World, x: seq<DeviceEvent>, bytes: seq<Byte>, y: seq<DeviceEvent>, again: Reconnection)
    requires Inv(w) && InFlight(w) && w.link == Reading && w.phase == DeviceTurn
    requires (forall d | d in x :: Without(d, false)) && Frames.Parse(bytes) == Frames.Refused
    ensures var v := Step(w, DevicePoll(x + [Received(false, bytes)] + y, again));
      v == w.(link := Stalled, log := Hear(w, bytes).log, phase := ClientTurn)
  {
    hide Handlers, RepliesInOrder, Clean, RunHandlers, Frames.Parse;
    NoEvents(w, x);
    OneCounts(w, x, Received(false, bytes), y);
    StalledHandlers(Hear(w, bytes).(link := Stalled), y);
    LaterPoll(w, x + [Received(false, bytes)] + y, again);
  }

  // ----- a client whose request is lost -----

  /** The request is open, and nothing is under way for it. */
  ghost predicate Deaf(w: World) {
    Inv(w) && Idle(w) && w.connected && !w.cancelled && w.phase == ClientTurn && w.client.pending.Some?
  }

  /** A reply with an unknown code leaves the client so. */
  lemma UnknownDeafens(w: World, bytes: seq<Byte>, again: Reconnection)
    requires Inv(w) && InFlight(w) && w.link == Reading && w.phase == DeviceTurn && !w.cancelled
    requires ProtocolReplies.UnknownReply(bytes)
    ensures var v := Step(w, DevicePoll([Received(false, bytes)], again));
      Deaf(v) && v.client == w.client && v.replies == w.replies && v.requests == w.requests
  {
    hide Handlers, RepliesInOrder, Clean, RunHandlers, Frames.Parse;
    var v := Step(w, DevicePoll([Received(false, bytes)], again));
    OneEvent(w, Received(false, bytes));
    LaterPoll(w, [Received(false, bytes)], again);
    StepSafe(w, DevicePoll([Received(false, bytes)], again));
  }

  /** So does a failed call to another thread, at the client's next turn. */
  lemma FailureDeafens(w: World, m: Message, again: Reconnection)
    requires Ready(w) && ForSecondaryThread(m.code) && !m.ragged
    ensures var v := Step(Step(Step(w, ClientPoll(Some(m), Failed)), LoopTop), DevicePoll([], again));
      && Deaf(v) && v.client == w.client.(pending := Some(|w.requests|)) && v.replies == w.replies
      && v.requests == w.requests + [Request(w.client.id, m.code)]
  {
    hide Handlers, RepliesInOrder, Clean, Told, Forwards, ForSecondaryThread, HandleCommand;
    ForwardedAtOnce(w, m, Failed);
    var u := Step(w, ClientPoll(Some(m), Failed));
    StepSafe(w, ClientPoll(Some(m), Failed));
    StepSafe(u, LoopTop);
    StepSafe(Step(u, LoopTop), DevicePoll([], again));
  }

  /** Its next receive fails, and within one turn of the loop its manager is replaced by a new one, whose client is
      served again.  The request in between is not received. */
  lemma DeafReplaced(w: World, m: Option<Message>, f: Forwarding, again: Reconnection)
    requires Deaf(w)
    ensures var v := Step(Step(Step(w, ClientPoll(m, f)), LoopTop), DevicePoll([], again));
      v == w.(client := Client(w.client.id + 1, false, None, 998)) && Ready(v)
  {
    hide Handlers, Clean;
    var v := Step(Step(Step(w, ClientPoll(m, f)), LoopTop), DevicePoll([], again));
    assert RepliesInOrder(v);
  }
}
