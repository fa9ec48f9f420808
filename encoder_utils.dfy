/** The encoder command link: the shared persistent connection, one-shot
    connections, the command exchange with its read loop, and the parse of the
    device's `List` answer. The device and the network are an oracle planned in
    advance: the outcome of each connection attempt and of each command. */
module EncoderUtils {
  import opened Wrappers
  import opened Text

  /** What writing one command does. */
  datatype SendResult = Sent | SendOsError(error: string) | SendOtherError

  /** What one read of at most 1024 bytes returns: data (empty when the peer has
      closed), a timeout, or an error of the connection-lost family (with the text
      of the exception) or of another kind. */
  datatype RecvEvent = Chunk(data: string) | TimedOut | RecvOsError(error: string) | RecvOtherError

  /** How the device side handles one command: the write, then every read. */
  datatype Exchange = Exchange(send: SendResult, events: seq<RecvEvent>)

  /** The result of `send_command`: the answer text, or the connection-lost
      exception (`ConnectionResetError`, `BrokenPipeError`, `OSError`) re-raised,
      with its text (`str(e)`), which the platform decides. */
  datatype Reply = Answer(text: string) | ConnectionLost(error: string)

  /** The read loop's outcome before decoding and stripping. */
  datatype ReadOutcome = Data(bytes: string) | ReadOsError(error: string) | ReadOtherError

  /** The text `send_persistent_command` returns when the reconnection fails. */
  const ReconnectFailed: string := "❌ 無法重新建立連線"

  /** Data read until an empty chunk or a timeout; a read error ends the loop with it.
      Running out of planned events counts as a timeout. */
  function Collect(events: seq<RecvEvent>): ReadOutcome {
    if events == [] then Data("")
    else match events[0]
      case Chunk(d) =>
        if d == [] then Data("")
        else (match Collect(events[1..])
              case Data(rest) => Data(d + rest)
              case other => other)
      case TimedOut => Data("")
      case RecvOsError(e) => ReadOsError(e)
      case RecvOtherError => ReadOtherError
  }

  /** `d` followed by what the rest of the events collect. */
  function Prepend(d: string, o: ReadOutcome): ReadOutcome {
    match o
    case Data(rest) => Data(d + rest)
    case other => other
  }

  /** The events up to the first one that ends the loop. */
  function ReadsConsumed(events: seq<RecvEvent>): nat
    ensures ReadsConsumed(events) <= |events|
  {
    if events == [] then 0
    else match events[0]
      case Chunk(d) => if d == [] then 1 else 1 + ReadsConsumed(events[1..])
      case _ => 1
  }

  /** The data collected is exactly the chunks read before the loop stopped, in order. */
  lemma {:induction false} CollectIsChunks(events: seq<RecvEvent>)
    ensures Collect(events).Data? ==>
              Collect(events).bytes == ChunksOf(events[..ReadsConsumed(events)])
  {
    if events != [] && events[0].Chunk? && events[0].data != [] {
      CollectIsChunks(events[1..]);
      assert events[..ReadsConsumed(events)] == [events[0]] + events[1..][..ReadsConsumed(events[1..])];
    } else if events != [] {
      assert events[..ReadsConsumed(events)] == [events[0]];
    }
  }

  /** The concatenated data of the chunk events. */
  function ChunksOf(events: seq<RecvEvent>): string {
    if events == [] then ""
    else (if events[0].Chunk? then events[0].data else "") + ChunksOf(events[1..])
  }

  /** The reply an exchange produces: connection-lost errors are re-raised, any other
      error gives the empty answer, otherwise the stripped data. */
  function ReplyOf(ex: Exchange): (r: Reply)
    ensures ex.send.SendOsError? ==> r == ConnectionLost(ex.send.error)
    ensures ex.send == SendOtherError ==> r == Answer("")
    ensures r.Answer? && r.text != [] ==> !IsSpace(r.text[0]) && !IsSpace(r.text[|r.text| - 1])
  {
    match ex.send
    case SendOsError(e) => ConnectionLost(e)
    case SendOtherError => Answer("")
    case Sent =>
      match Collect(ex.events)
      case Data(d) => Answer(Strip(d))
      case ReadOsError(e) => ConnectionLost(e)
      case ReadOtherError => Answer("")
  }

  /** The exchange planned for the next command: a silent device when none is planned. */
  function NextExchange(plan: seq<Exchange>): Exchange {
    if plan == [] then Exchange(Sent, []) else plan[0]
  }

  function Rest<T>(s: seq<T>): seq<T> {
    if s == [] then [] else s[1..]
  }

  /** The read loop of `send_command`: append chunks until an empty chunk or a timeout. */
  method ReadLoop(events: seq<RecvEvent>) returns (o: ReadOutcome)
    ensures o == Collect(events)
  {
    var data := "";
    var i := 0;
    assert data + "" == data;
    while i < |events|
      invariant 0 <= i <= |events|
      invariant Collect(events) == Prepend(data, Collect(events[i..]))
    {
      CollectAt(events, i);
      match events[i] {
        case Chunk(d) =>
          if d == [] {
            return Data(data);
          }
          PrependTwice(data, d, Collect(events[i + 1..]));
          data := data + d;
        case TimedOut =>
          return Data(data);
        case RecvOsError(e) =>
          return ReadOsError(e);
        case RecvOtherError =>
          return ReadOtherError;
      }
      i := i + 1;
    }
    assert events[i..] == [];
    return Data(data);
  }

  /** One step of `Collect` at position `i`. */
  lemma CollectAt(events: seq<RecvEvent>, i: int)
    requires 0 <= i < |events|
    ensures events[i] == TimedOut || events[i] == Chunk("") ==> Collect(events[i..]) == Data("")
    ensures events[i].RecvOsError? ==> Collect(events[i..]) == ReadOsError(events[i].error)
    ensures events[i] == RecvOtherError ==> Collect(events[i..]) == ReadOtherError
    ensures events[i].Chunk? && events[i].data != [] ==>
              Collect(events[i..]) == Prepend(events[i].data, Collect(events[i + 1..]))
    ensures forall d :: Prepend(d, Data("")) == Data(d)
  {
    var rest := events[i..];
    assert rest[0] == events[i] && rest[1..] == events[i + 1..];
    forall d ensures Prepend(d, Data("")) == Data(d) {
      assert d + "" == d;
    }
  }

  lemma PrependTwice(a: string, b: string, o: ReadOutcome)
    ensures Prepend(a, Prepend(b, o)) == Prepend(a + b, o)
  {
    if o.Data? {
      assert a + (b + o.bytes) == (a + b) + o.bytes;
    }
  }

  /** The encoder link: the module's `persistent_sock` plus the planned behaviour of
      the network and a trace of what was written and closed. */
  class Link {
    /** `persistent_sock`: the shared connection, if any. */
    var persistent: Option<nat>
    /** Outcomes of the coming connection attempts (true: connected). */
    var connects: seq<bool>
    /** How the device handles the coming commands. */
    var exchanges: seq<Exchange>
    /** Number of the next socket to be opened. */
    var nextSock: nat
    /** Every write attempted: the socket and the bytes `cmd + "\r\n"`. */
    var writes: seq<(nat, string)>
    /** Sockets closed so far. */
    var closed: set<nat>

    constructor(connects0: seq<bool>, exchanges0: seq<Exchange>)
      ensures persistent == None && connects == connects0 && exchanges == exchanges0
      ensures nextSock == 0 && writes == [] && closed == {}
    {
      persistent := None;
      connects := connects0;
      exchanges := exchanges0;
      nextSock := 0;
      writes := [];
      closed := {};
    }

    /** `connect_socket`: a fresh socket, or `None` when the attempt fails. */
    method ConnectSocket() returns (s: Option<nat>)
      modifies this
      ensures connects == Rest(old(connects))
      ensures s == (if old(connects) != [] && old(connects)[0] then Some(old(nextSock)) else None)
      ensures nextSock == old(nextSock) + (if s.Some? then 1 else 0)
      ensures persistent == old(persistent) && exchanges == old(exchanges)
      ensures writes == old(writes) && closed == old(closed)
    {
      var ok := connects != [] && connects[0];
      connects := Rest(connects);
      if ok {
        s := Some(nextSock);
        nextSock := nextSock + 1;
      } else {
        s := None;
      }
    }

    /** `sock.close()`. */
    method Close(sock: nat)
      modifies this
      ensures closed == old(closed) + {sock}
      ensures persistent == old(persistent) && connects == old(connects) && exchanges == old(exchanges)
      ensures nextSock == old(nextSock) && writes == old(writes)
    {
      closed := closed + {sock};
    }

    /** `init_socket`: connect only while there is no shared connection. */
    method InitSocket() returns (s: Option<nat>)
      modifies this
      ensures old(persistent).Some? ==> s == old(persistent) && unchanged(this)
      ensures old(persistent).None? ==> connects == Rest(old(connects))
      ensures persistent == s
    {
      if persistent.None? {
        persistent := ConnectSocket();
      }
      s := persistent;
    }

    /** `close_socket`: close and forget the shared connection; nothing when there is none. */
    method CloseSocket()
      modifies this
      ensures persistent == None
      ensures closed == old(closed) + (if old(persistent).Some? then {old(persistent).value} else {})
      ensures old(persistent).None? ==> unchanged(this)
      ensures connects == old(connects) && exchanges == old(exchanges)
      ensures nextSock == old(nextSock) && writes == old(writes)
    {
      if persistent.Some? {
        Close(persistent.value);
        persistent := None;
      }
    }

    /** `send_command`: write `cmd + "\r\n"` once and read until an empty chunk or a
        timeout. Without a socket the call fails inside the `try` and gives "". */
    method SendCommand(sock: Option<nat>, cmd: string) returns (r: Reply)
      modifies this
      ensures sock.None? ==> r == Answer("") && unchanged(this)
      ensures sock.Some? ==> r == ReplyOf(NextExchange(old(exchanges)))
                             && writes == old(writes) + [(sock.value, cmd + "\r\n")]
                             && exchanges == Rest(old(exchanges))
      ensures persistent == old(persistent) && connects == old(connects)
      ensures nextSock == old(nextSock) && closed == old(closed)
    {
      if sock.None? {
        return Answer("");
      }
      var ex := NextExchange(exchanges);
      exchanges := Rest(exchanges);
      writes := writes + [(sock.value, cmd + "\r\n")];
      r := Exchanged(ex);
    }

    /** The reply of one exchange, reading with the loop of `send_command`. */
    static method Exchanged(ex: Exchange) returns (r: Reply)
      ensures r == ReplyOf(ex)
    {
      if ex.send.SendOsError? {
        return ConnectionLost(ex.send.error);
      } else if ex.send == SendOtherError {
        return Answer("");
      }
      var outcome := ReadLoop(ex.events);
      match outcome {
        case Data(d) => r := Answer(Strip(d));
        case ReadOsError(e) => r := ConnectionLost(e);
        case ReadOtherError => r := Answer("");
      }
    }

    /** The shared socket, when there is one, is a socket this link opened and has
        not closed; every socket written to or closed was opened by this link. */
    ghost predicate Valid()
      reads this
    {
      (persistent.Some? ==> persistent.value < nextSock && persistent.value !in closed)
      && (forall w :: w in writes ==> w.0 < nextSock)
      && (forall c :: c in closed ==> c < nextSock)
    }

    /** `send_persistent_command`: send over the shared connection (connecting first if
        there is none); when that raises, close it, reconnect and send once more, on
        the new socket, which becomes the shared one. Without a socket at first the
        send fails inside `send_command` and gives "". A second lost connection
        propagates, and a failed reconnection gives `ReconnectFailed`. */
    method SendPersistentCommand(cmd: string) returns (r: Reply)
      modifies this
      ensures var first := FirstSocket(old(persistent), old(connects), old(nextSock));
              first.None? ==>
                r == Answer("") && persistent == None && writes == old(writes) && closed == old(closed)
                && exchanges == old(exchanges) && connects == Rest(old(connects)) && nextSock == old(nextSock)
      ensures var first := FirstSocket(old(persistent), old(connects), old(nextSock));
              var later := if old(persistent).Some? then old(connects) else Rest(old(connects));
              var e0 := ReplyOf(NextExchange(old(exchanges)));
              first.Some? && !e0.ConnectionLost? ==>
                r == e0 && persistent == first && writes == old(writes) + [(first.value, cmd + "\r\n")]
                && closed == old(closed) && exchanges == Rest(old(exchanges)) && connects == later
      ensures var first := FirstSocket(old(persistent), old(connects), old(nextSock));
              var later := if old(persistent).Some? then old(connects) else Rest(old(connects));
              var again := old(nextSock) + (if old(persistent).None? then 1 else 0);
              var e0 := ReplyOf(NextExchange(old(exchanges)));
              first.Some? && e0.ConnectionLost? && ConnectOk(later) ==>
                r == ReplyOf(NextExchange(Rest(old(exchanges)))) && persistent == Some(again)
                && writes == old(writes) + [(first.value, cmd + "\r\n"), (again, cmd + "\r\n")]
                && closed == old(closed) + {first.value}
                && exchanges == Rest(Rest(old(exchanges))) && connects == Rest(later)
      ensures var first := FirstSocket(old(persistent), old(connects), old(nextSock));
              var later := if old(persistent).Some? then old(connects) else Rest(old(connects));
              var e0 := ReplyOf(NextExchange(old(exchanges)));
              first.Some? && e0.ConnectionLost? && !ConnectOk(later) ==>
                r == Answer(ReconnectFailed) && persistent == None
                && writes == old(writes) + [(first.value, cmd + "\r\n")]
                && closed == old(closed) + {first.value}
                && exchanges == Rest(old(exchanges)) && connects == Rest(later)
      ensures r == PersistentReply(old(persistent), old(connects), old(exchanges))
      ensures old(writes) <= writes && forall k :: |old(writes)| <= k < |writes| ==> writes[k].1 == cmd + "\r\n"
      ensures old(Valid()) ==> Valid()
    {
      if persistent.None? {
        persistent := ConnectSocket();
      }
      r := SendCommand(persistent, cmd);
      if r.ConnectionLost? {
        CloseSocket();
        persistent := ConnectSocket();
        if persistent.Some? {
          r := SendCommand(persistent, cmd);
        } else {
          r := Answer(ReconnectFailed);
        }
      }
    }

    /** `list_encoders`: ask the device for its `List` over a one-shot connection;
        no connection gives no names, a lost connection propagates. */
    method ListEncoders() returns (r: Outcome<seq<string>>)
      modifies this
      ensures (old(connects) == [] || !old(connects)[0]) ==> r == Returned([]) && writes == old(writes)
      ensures old(connects) != [] && old(connects)[0] ==>
                writes == old(writes) + [(old(nextSock), "List\r\n")]
                && r == (match ReplyOf(NextExchange(old(exchanges)))
                         case Answer(t) => Returned(ParseEncoderList(t))
                         case ConnectionLost(e) => Raised(e))
      ensures persistent == old(persistent)
    {
      var sock := ConnectSocket();
      if sock.None? {
        r := Returned([]);
      } else {
        assert "List" + "\r\n" == "List\r\n";
        var response := SendCommand(sock, "List");
        if response.ConnectionLost? {
          r := Raised(response.error);
        } else {
          Close(sock.value);
          r := Returned(ParseEncoderList(response.text));
        }
      }
    }
  }

  /** The next connection attempt succeeds. */
  predicate ConnectOk(connects: seq<bool>) {
    connects != [] && connects[0]
  }

  /** The socket `send_persistent_command` sends on first: the shared one, else a fresh
      one when the connection attempt succeeds, else none. */
  function FirstSocket(shared: Option<nat>, connects: seq<bool>, nextSock: nat): Option<nat> {
    if shared.Some? then shared else if ConnectOk(connects) then Some(nextSock) else None
  }

  /** What `send_persistent_command` answers from the link's state: "" without a socket;
      the device's reply unless the connection is lost; after a loss, the reply on the
      reconnected socket, or `ReconnectFailed` when the reconnection fails. */
  function PersistentReply(shared: Option<nat>, connects: seq<bool>, exchanges: seq<Exchange>): (r: Reply)
    ensures r.ConnectionLost? <==>
              (shared.Some? || ConnectOk(connects)) && ReplyOf(NextExchange(exchanges)).ConnectionLost?
              && ConnectOk(if shared.Some? then connects else Rest(connects))
              && ReplyOf(NextExchange(Rest(exchanges))).ConnectionLost?
    ensures (shared.Some? || ConnectOk(connects)) && !ReplyOf(NextExchange(exchanges)).ConnectionLost? ==>
              r == ReplyOf(NextExchange(exchanges))
  {
    var later := if shared.Some? then connects else Rest(connects);
    if shared.None? && !ConnectOk(connects) then Answer("")
    else if !ReplyOf(NextExchange(exchanges)).ConnectionLost? then ReplyOf(NextExchange(exchanges))
    else if ConnectOk(later) then ReplyOf(NextExchange(Rest(exchanges)))
    else Answer(ReconnectFailed)
  }

  /** The lines of the `List` answer that contain "Mode:", in order. */
  function ModeLinesOf(lines: seq<string>): seq<string> {
    if lines == [] then []
    else (if Contains(lines[0], "Mode:") then [lines[0]] else []) + ModeLinesOf(lines[1..])
  }

  /** The kept lines are exactly the lines that contain "Mode:". */
  lemma {:induction false} ModeLinesOfSpec(lines: seq<string>)
    ensures forall l :: l in ModeLinesOf(lines) <==> l in lines && Contains(l, "Mode:")
  {
    if lines != [] {
      ModeLinesOfSpec(lines[1..]);
      assert lines == [lines[0]] + lines[1..];
    }
  }

  /** An extracted name: free of "Mode:" and without whitespace at either end. */
  ghost predicate CleanName(name: string) {
    (forall j :: !MatchAt(name, "Mode:", j))
    && (name == [] || (!IsSpace(name[0]) && !IsSpace(name[|name| - 1])))
  }

  /** The name taken from one line containing "Mode:". */
  function NameOf(line: string): string {
    Strip(TextBefore(line, "Mode:"))
  }

  /** A name is free of "Mode:" and has no whitespace at either end. */
  lemma NameOfClean(line: string)
    ensures CleanName(NameOf(line))
  {
    NoMatchInSlice(TextBefore(line, "Mode:"), NameOf(line), "Mode:");
  }

  /** For each line containing "Mode:", in order, the stripped text before its first "Mode:". */
  function ParseLines(lines: seq<string>): (r: seq<string>)
    ensures |r| == |ModeLinesOf(lines)|
    ensures forall k :: 0 <= k < |r| ==> r[k] == NameOf(ModeLinesOf(lines)[k])
  {
    if lines == [] then []
    else
      var rest := ParseLines(lines[1..]);
      if Contains(lines[0], "Mode:") then
        var r := [NameOf(lines[0])] + rest;
        ConsNames(lines[0], lines[1..], rest);
        r
      else
        assert ModeLinesOf(lines) == ModeLinesOf(lines[1..]);
        rest
  }

  /** Every name taken from the `List` answer is clean. */
  lemma ParseLinesClean(lines: seq<string>)
    ensures forall k :: 0 <= k < |ParseLines(lines)| ==> CleanName(ParseLines(lines)[k])
  {
    forall k | 0 <= k < |ParseLines(lines)|
      ensures CleanName(ParseLines(lines)[k])
    {
      NameOfClean(ModeLinesOf(lines)[k]);
    }
  }

  /** A line containing "Mode:" put before the rest puts its name before the rest's. */
  lemma ConsNames(line: string, more: seq<string>, rest: seq<string>)
    requires Contains(line, "Mode:")
    requires |rest| == |ModeLinesOf(more)|
    requires forall k :: 0 <= k < |rest| ==> rest[k] == NameOf(ModeLinesOf(more)[k])
    ensures var lines := [line] + more;
            var r := [NameOf(line)] + rest;
            |r| == |ModeLinesOf(lines)| && forall k :: 0 <= k < |r| ==> r[k] == NameOf(ModeLinesOf(lines)[k])
  {
    var lines := [line] + more;
    var r := [NameOf(line)] + rest;
    assert lines[1..] == more;
    var modes := ModeLinesOf(lines);
    assert modes == [line] + ModeLinesOf(more);
    forall k | 0 <= k < |r|
      ensures r[k] == NameOf(modes[k])
    {
      if k > 0 {
        assert r[k] == rest[k - 1] && modes[k] == ModeLinesOf(more)[k - 1];
      }
    }
  }

  /** A slice of a text free of `sub` is free of `sub`. */
  lemma NoMatchInSlice(s: string, t: string, sub: string)
    requires forall j :: !MatchAt(s, sub, j)
    requires exists i :: MatchAt(s, t, i)
    ensures forall j :: !MatchAt(t, sub, j)
  {
    var i :| MatchAt(s, t, i);
    forall j ensures !MatchAt(t, sub, j) {
      if MatchAt(t, sub, j) {
        MatchInSlice(s, t, sub, i, j);
      }
    }
  }

  /** An occurrence inside an occurring slice is an occurrence in the whole. */
  lemma MatchInSlice(s: string, t: string, sub: string, i: int, j: int)
    requires MatchAt(s, t, i) && MatchAt(t, sub, j)
    ensures MatchAt(s, sub, i + j)
  {
    assert t == s[i..i + |t|];
    assert forall k :: 0 <= k < |sub| ==> s[i + j + k] == t[j + k] == sub[k];
    assert s[i + j..i + j + |sub|] == sub;
  }

  /** The names `list_encoders` extracts from the device's answer. */
  function ParseEncoderList(response: string): seq<string> {
    ParseLines(SplitLines(response))
  }
}
