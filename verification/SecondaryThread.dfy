/** The other end of a forwarded request: the command sockets of the three secondary threads. */
module SecondaryThreads {
  import opened Words
  import opened Protocol

  datatype Kind = UdpThread | ClusterThread | HistogramThread

  const SET_RAW_TPX3_PATH: Word32 := 501
  const GET_RAW_DATA_SERVER_PATH: Word32 := 502
  const RESET_TOA_ROLLOVER_COUNTER: Word32 := 503
  const GET_CLUSTER_SERVER_PATH: Word32 := 600
  const SET_CLUSTER_INPUT_SERVER: Word32 := 601
  const SET_CLUSTER_PARAMETERS: Word32 := 602
  const FLUSH_CLUSTERS: Word32 := 603
  const SET_CLUSTER_PATH: Word32 := 604
  const GET_HISTOGRAM_SERVER_PATH: Word32 := 700
  const SET_HISTOGRAM_INPUT_SERVER: Word32 := 701
  const SET_HISTOGRAM_OUTPUT_PERIOD: Word32 := 702

  /** The codes that the command thread forwards to a thread of this kind. */
  predicate Serves(kind: Kind, code: Word32) {
    match kind
    case UdpThread => 501 <= code <= 503
    case ClusterThread => 600 <= code <= 604
    case HistogramThread => 700 <= code <= 702
  }

  /** A reply to a request with this code: the code itself with data, or an error code alone. */
  predicate AnswersTo(words: seq<Word32>, code: Word32) {
    words != [] && (words[0] == code || (|words| == 1 && IsErrorCode(words[0])))
  }

  /** The exact words, for each code: an address request and a counter reset or flush carry no data, and the period
      one word; a file or socket that cannot be opened is 994 or 998; 999 is a code for another thread. */
  ghost predicate Expected(words: seq<Word32>, kind: Kind, code: Word32, data: seq<Word32>, works: bool, path: seq<Word32>) {
    && (!Serves(kind, code) ==> words == [999])
    && (Serves(kind, code) ==>
          && (code == 502 || code == 600 || code == 700 ==> words == if data == [] then [code] + path else [993])
          && (code == 503 || code == 603 ==> words == if data == [] then [code] else [993])
          && (code == 501 || code == 604 ==> words == if works then [code] + data else [994])
          && (code == 601 || code == 701 ==> words == if works then [code] + data else [998])
          && (code == 602 ==> words == [code] + data)
          && (code == 702 ==> words == if |data| == 1 then [code] + data else [993]))
  }

  /** What the call ends with, for the command thread. */
  function Ending(words: seq<Word32>, code: Word32): Forwarding
    requires AnswersTo(words, code)
  {
    if words[0] == code then Answered(words[1..]) else RefusedWith(words[0])
  }

  class SecondaryThread {
    const kind: Kind
    var lastCommand: Word32
    var unanswered: bool
    var sent: seq<seq<Word32>>
    var fault: bool  // data of a request was read that is not there
    var cancelled: bool

    constructor (k: Kind)
      ensures kind == k && !unanswered && !fault && !cancelled && sent == []
    {
      kind := k;
      lastCommand, unanswered, sent, fault, cancelled := ERROR_OCCURED, false, [], false, false;
    }

    /** pollCommands: a request of whole words is answered exactly once, by its own code or an error code, and as
        unknown if and only if it is not for this thread; a ragged one is dropped and leaves its sender waiting,
        and the next poll, which cannot receive while a request is open, cancels the thread.
        works: the file or socket could be opened; path: the words of the thread's own address. */
    method PollCommands(request: Option<Message>, works: bool, path: seq<Word32>)
      requires !fault
      modifies this
      ensures cancelled <==> old(cancelled) || old(unanswered)
      ensures old(unanswered) ==> unanswered && !fault && sent == old(sent)
      ensures !old(unanswered) ==>
        && (fault <==> request.Some? && !request.value.ragged && kind == ClusterThread
                       && request.value.code == SET_CLUSTER_PARAMETERS && |request.value.data| < 3)
        && (request.None? || request.value.ragged || fault ==> sent == old(sent))
        && (unanswered <==> request.Some? && (request.value.ragged || fault))
      ensures !old(unanswered) && request.Some? && !unanswered ==>
        && |sent| == |old(sent)| + 1 && sent[..|old(sent)|] == old(sent)
        && AnswersTo(sent[|old(sent)|], request.value.code)
        && (sent[|old(sent)|] == [UNKNOWN_COMMAND] <==> !Serves(kind, request.value.code))
        && Expected(sent[|old(sent)|], kind, request.value.code, request.value.data, works, path)
    {
      if unanswered {
        cancelled := true;
      } else if request.Some? {
        unanswered := true;
        if request.value.ragged {
          return;
        }
        lastCommand := request.value.code;
        HandleCommand(request.value.code, request.value.data, works, path);
      }
    }

    method HandleCommand(code: Word32, data: seq<Word32>, works: bool, path: seq<Word32>)
      requires unanswered && lastCommand == code && !fault
      modifies this`lastCommand, this`unanswered, this`sent, this`fault
      ensures fault <==> kind == ClusterThread && code == SET_CLUSTER_PARAMETERS && |data| < 3
      ensures unanswered <==> fault
      ensures fault ==> sent == old(sent)
      ensures !fault ==>
        && |sent| == |old(sent)| + 1 && sent[..|old(sent)|] == old(sent) && AnswersTo(sent[|old(sent)|], code)
        && (sent[|old(sent)|] == [UNKNOWN_COMMAND] <==> !Serves(kind, code))
        && Expected(sent[|old(sent)|], kind, code, data, works, path)
    {
      assert [code] + [] == [code];
      match kind {
        case UdpThread =>
          if code == SET_RAW_TPX3_PATH {
            AnswerIf(works, data, CANT_OPEN_FILE);
          } else if code == GET_RAW_DATA_SERVER_PATH {
            AnswerIf(data == [], path, INVALID_COMMAND_DATA);
          } else if code == RESET_TOA_ROLLOVER_COUNTER {
            AnswerIf(data == [], data, INVALID_COMMAND_DATA);
          } else {
            SendError(UNKNOWN_COMMAND);
          }
        case ClusterThread =>
          if code == GET_CLUSTER_SERVER_PATH {
            AnswerIf(data == [], path, INVALID_COMMAND_DATA);
          } else if code == SET_CLUSTER_INPUT_SERVER {
            AnswerIf(works, data, ERROR_OCCURED);
          } else if code == SET_CLUSTER_PARAMETERS {
            if |data| < 3 {
              fault := true;
            } else {
              SendResponse(data);
            }
          } else if code == FLUSH_CLUSTERS {
            AnswerIf(data == [], [], INVALID_COMMAND_DATA);
          } else if code == SET_CLUSTER_PATH {
            AnswerIf(works, data, CANT_OPEN_FILE);
          } else {
            SendError(UNKNOWN_COMMAND);
          }
        case HistogramThread =>
          if code == GET_HISTOGRAM_SERVER_PATH {
            AnswerIf(data == [], path, INVALID_COMMAND_DATA);
          } else if code == SET_HISTOGRAM_INPUT_SERVER {
            AnswerIf(works, data, ERROR_OCCURED);
          } else if code == SET_HISTOGRAM_OUTPUT_PERIOD {
            AnswerIf(|data| == 1, data, INVALID_COMMAND_DATA);
          } else {
            SendError(UNKNOWN_COMMAND);
          }
      }
    }

    /** The two ends of every handler. */
    method AnswerIf(ok: bool, data: seq<Word32>, code: Word32)
      requires unanswered
      modifies this`lastCommand, this`unanswered, this`sent
      ensures !unanswered && sent == old(sent) + [if ok then [old(lastCommand)] + data else [code]]
    {
      if ok {
        SendResponse(data);
      } else {
        SendError(code);
      }
    }

    method SendError(code: Word32)
      requires unanswered
      modifies this`lastCommand, this`unanswered, this`sent
      ensures !unanswered && sent == old(sent) + [[code]]
    {
      lastCommand := code;
      SendResponse([]);
      assert [code] + [] == [code];
    }

    method SendResponse(data: seq<Word32>)
      requires unanswered
      modifies this`unanswered, this`sent
      ensures !unanswered && sent == old(sent) + [[lastCommand] + data]
    {
      var sendData := SendData(lastCommand, data);
      sent, unanswered := sent + [sendData], false;
    }
  }

  /** The codes the command thread forwards are exactly those that some thread serves, and no two kinds serve the same. */
  lemma ServedByOne(code: Word32)
    ensures ForSecondaryThread(code) <==> exists kind :: Serves(kind, code)
    ensures forall k, l | Serves(k, code) && Serves(l, code) :: k == l
  {
    var kind := if code < 600 then UdpThread else if code < 700 then ClusterThread else HistogramThread;
    assert ForSecondaryThread(code) ==> Serves(kind, code);
  }

  /** Every code the command thread forwards is served by exactly one kind of thread, and what such a thread
      sends is what the state machine allows and reaches the client unchanged. */
  lemma ForwardedReply(w: World, code: Word32, words: seq<Word32>)
    requires ForSecondaryThread(code) && AnswersTo(words, code)
    ensures exists kind :: Serves(kind, code) && forall other | Serves(other, code) :: other == kind
    ensures ProperEnding(Ending(words, code))
    ensures var v := Forward(w, code, Ending(words, code));
      && v == PassOn(w.(log := v.log), words)
      && (w.client.pending.Some? && !w.client.closed ==>
            v.replies == w.replies + [Reply(w.client.pending.value, words)] && v.client == w.client.(pending := None))
  {
    ServedByOne(code);
    if words[0] == code {
      assert [code] + words[1..] == words;
    } else {
      assert [words[0]] == words;
    }
  }

  predicate ProperEnding(f: Forwarding) { f.RefusedWith? ==> IsErrorCode(f.code) }
}
