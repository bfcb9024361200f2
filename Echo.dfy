/**
 * The echo pair: a listener that accepts one client at a time, reads one
 * chunk and sends it back, and a client that sends a fixed HTTP/1.1 request
 * and accumulates the response until the peer closes.  Sockets are replaced
 * by what they report: the listener consumes a finite trace of accept
 * events, the client a finite trace of reads.
 */
module Echo {
  import opened Common
  import opened Text
  import Utf8

  /** The buffer size passed to every `recv`. */
  const RecvSize: nat := 1024

  /** The bytes one `recv(1024)` can return; empty means the peer closed. */
  type Chunk = s: seq<byte> | |s| <= RecvSize

  // ---------------------------------------------------------------------------
  // Listener

  /** The listener's default accept timeout, in seconds. */
  const ServerTimeout: nat := 15

  /** What the single `recv` on an accepted connection reports. */
  datatype Received = Data(bytes: Chunk) | RecvFault(message: string)

  /**
   * One turn of the accept loop: the accept timed out, raised, or produced a
   * connection whose one `recv` and (if reached) `sendall` behaved as given.
   */
  datatype Accept =
    | AcceptTimeout
    | AcceptFault(message: string)
    | Connection(addr: string, recv: Received, sendFault: Option<string>)

  /** What the generic handler reports: a socket error, or a chunk that does not decode. */
  datatype Failure = SocketFault(message: string) | UndecodableData(bytes: seq<byte>)

  /** The lines the listener prints, by kind. */
  datatype Entry =
    | Listening(host: string, port: nat)
    | ConnectedBy(addr: string)
    | ReceivedData(bytes: seq<byte>)
    | TimedOutAfter(seconds: nat)
    | ErrorReported(failure: Failure)

  /** Why the accept loop ended; `TraceEnded` means it was still accepting when the trace ran out. */
  datatype Stop = TimedOut | PeerSentNothing | Failed(failure: Failure) | TraceEnded

  /** One `sendall`: the peer and the bytes sent back. */
  datatype Reply = Reply(addr: string, bytes: seq<byte>)

  datatype Run = Run(log: seq<Entry>, replies: seq<Reply>, stop: Stop)

  /** One turn of the loop: what it printed and sent, and the stop it caused, if any. */
  datatype Turn = Turn(log: seq<Entry>, replies: seq<Reply>, stop: Option<Stop>)

  /** A bind or listen fault happens outside the handler and propagates to the caller. */
  datatype ServerOutcome = BindRaised(message: string) | Served(run: Run)

  /** A connection after which the listener goes back to accepting. */
  predicate Continues(e: Accept) {
    && e.Connection?
    && e.recv.Data?
    && |e.recv.bytes| > 0
    && Utf8.IsValid(e.recv.bytes)
    && e.sendFault.None?
  }

  /** The reply a well-behaved connection gets: its own bytes, to its own peer. */
  function EchoOf(e: Accept): (r: Reply)
    requires Continues(e)
    ensures r.addr == e.addr && r.bytes == e.recv.bytes
  {
    Reply(e.addr, e.recv.bytes)
  }

  /** How a connection that does not continue the loop ends it. */
  function StopOf(e: Accept): (stop: Stop)
    requires !Continues(e)
    ensures stop != TraceEnded
  {
    match e
    case AcceptTimeout => TimedOut
    case AcceptFault(m) => Failed(SocketFault(m))
    case Connection(_, recv, sendFault) =>
      if recv.RecvFault? then Failed(SocketFault(recv.message))
      else if |recv.bytes| == 0 then PeerSentNothing
      else if !Utf8.IsValid(recv.bytes) then Failed(UndecodableData(recv.bytes))
      else Failed(SocketFault(sendFault.value))
  }

  /**
   * One turn of the accept loop: what it prints and sends, and how it stops
   * the loop (`None` when the loop goes on accepting).
   */
  function Step(e: Accept, timeout: nat): (r: Turn)
    ensures r.stop.None? <==> Continues(e)
    ensures Continues(e) ==> r == Turn([ConnectedBy(e.addr), ReceivedData(e.recv.bytes)], [EchoOf(e)], None)
    ensures !Continues(e) ==> r.stop == Some(StopOf(e)) && r.replies == []
  {
    match e
    case AcceptTimeout => Turn([TimedOutAfter(timeout)], [], Some(TimedOut))
    case AcceptFault(m) => Turn([ErrorReported(SocketFault(m))], [], Some(Failed(SocketFault(m))))
    case Connection(addr, recv, sendFault) =>
      match recv
      case RecvFault(m) => Turn([ConnectedBy(addr), ErrorReported(SocketFault(m))], [], Some(Failed(SocketFault(m))))
      case Data(data) =>
        if |data| == 0 then Turn([ConnectedBy(addr)], [], Some(PeerSentNothing))
        else if !Utf8.IsValid(data) then
          Turn([ConnectedBy(addr), ErrorReported(UndecodableData(data))], [], Some(Failed(UndecodableData(data))))
        else if sendFault.Some? then
          Turn([ConnectedBy(addr), ReceivedData(data), ErrorReported(SocketFault(sendFault.value))], [],
               Some(Failed(SocketFault(sendFault.value))))
        else Turn([ConnectedBy(addr), ReceivedData(data)], [Reply(addr, data)], None)
  }

  /**
   * The accept loop over the remaining trace, as the source's `while True`
   * unrolls: it is still accepting at the end exactly when every event let
   * it go on, and it sends at most one reply per event.
   */
  function Serve(events: seq<Accept>, timeout: nat): (r: Run)
    ensures r.stop == TraceEnded <==> forall j :: 0 <= j < |events| ==> Continues(events[j])
    ensures |r.replies| <= |events|
  {
    if events == [] then Run([], [], TraceEnded)
    else
      var first := Step(events[0], timeout);
      if first.stop.Some? then Run(first.log, first.replies, first.stop.value)
      else
        var rest := Serve(events[1..], timeout);
        assert forall j :: 1 <= j < |events| ==> events[j] == events[1..][j - 1];
        Run(first.log + rest.log, first.replies + rest.replies, rest.stop)
  }

  /**
   * The listener serves exactly the leading run of well-behaved connections,
   * echoing to each the bytes it sent, and the first other event decides how
   * it stops.
   */
  lemma {:induction false} ServeCharacterisation(events: seq<Accept>, timeout: nat)
    ensures var run := Serve(events, timeout);
      && |run.replies| <= |events|
      && (forall j :: 0 <= j < |run.replies| ==>
            Continues(events[j]) && run.replies[j] == EchoOf(events[j]))
      && (|run.replies| < |events| ==> !Continues(events[|run.replies|]) && run.stop == StopOf(events[|run.replies|]))
      && (|run.replies| == |events| ==> run.stop == TraceEnded)
  {
    if events != [] && Continues(events[0]) {
      ServeCharacterisation(events[1..], timeout);
    }
  }

  /** The log of a run always ends with the message for how the loop stopped. */
  lemma {:induction false} ServeLogEnds(events: seq<Accept>, timeout: nat)
    ensures var run := Serve(events, timeout);
      && (run.stop == TimedOut ==> run.log != [] && run.log[|run.log| - 1] == TimedOutAfter(timeout))
      && (run.stop.Failed? ==> run.log != [] && run.log[|run.log| - 1] == ErrorReported(run.stop.failure))
  {
    if events != [] && Continues(events[0]) {
      ServeLogEnds(events[1..], timeout);
    }
  }

  /** An accept timeout ends the loop, however many clients were served before it. */
  lemma TimeoutStopsServer(served: seq<Accept>, rest: seq<Accept>, timeout: nat)
    requires forall j :: 0 <= j < |served| ==> Continues(served[j])
    ensures var run := Serve(served + [AcceptTimeout] + rest, timeout);
      run.stop == TimedOut && |run.replies| == |served|
  {
    StopsAt(served, AcceptTimeout, rest, timeout);
  }

  /** An empty first chunk ends the whole loop, not just that connection, and nothing is echoed to it. */
  lemma EmptyChunkStopsServer(served: seq<Accept>, addr: string, sendFault: Option<string>, rest: seq<Accept>, timeout: nat)
    requires forall j :: 0 <= j < |served| ==> Continues(served[j])
    ensures var run := Serve(served + [Connection(addr, Data([]), sendFault)] + rest, timeout);
      run.stop == PeerSentNothing && |run.replies| == |served|
  {
    StopsAt(served, Connection(addr, Data([]), sendFault), rest, timeout);
  }

  /** A chunk that does not decode ends the loop before it is echoed. */
  lemma UndecodableChunkStopsServer(served: seq<Accept>, addr: string, data: Chunk, sendFault: Option<string>,
                                    rest: seq<Accept>, timeout: nat)
    requires forall j :: 0 <= j < |served| ==> Continues(served[j])
    requires |data| > 0 && !Utf8.IsValid(data)
    ensures var run := Serve(served + [Connection(addr, Data(data), sendFault)] + rest, timeout);
      run.stop == Failed(UndecodableData(data)) && |run.replies| == |served|
      && forall j :: 0 <= j < |served| ==> run.replies[j] == EchoOf(served[j])
  {
    StopsAt(served, Connection(addr, Data(data), sendFault), rest, timeout);
  }

  /** After a run of served connections, the first event that does not continue decides the stop. */
  lemma StopsAt(served: seq<Accept>, e: Accept, rest: seq<Accept>, timeout: nat)
    requires forall j :: 0 <= j < |served| ==> Continues(served[j])
    requires !Continues(e)
    ensures var run := Serve(served + [e] + rest, timeout);
      && run.stop == StopOf(e) && |run.replies| == |served|
      && forall j :: 0 <= j < |served| ==> run.replies[j] == EchoOf(served[j])
  {
    var events := served + [e] + rest;
    ServeCharacterisation(events, timeout);
    var k := |Serve(events, timeout).replies|;
    assert forall j :: 0 <= j < |served| ==> events[j] == served[j];
    assert events[|served|] == e;
  }

  /** A client that sends `ping` gets `ping` back before the listener accepts again. */
  lemma PingIsEchoed(addr: string, ping: Chunk)
    requires ping == [0x70, 0x69, 0x6E, 0x67]
    ensures Serve([Connection(addr, Data(ping), None), AcceptTimeout], ServerTimeout)
      == Run([ConnectedBy(addr), ReceivedData(ping), TimedOutAfter(ServerTimeout)], [Reply(addr, ping)], TimedOut)
  {
    var events := [Connection(addr, Data(ping), None), AcceptTimeout];
    assert events[1..] == [AcceptTimeout];
  }

  /** The body of the accept loop for one event: the `try` block of one turn. */
  method HandleAccept(e: Accept, timeout: nat) returns (entries: seq<Entry>, replies: seq<Reply>, stop: Option<Stop>)
    ensures Turn(entries, replies, stop) == Step(e, timeout)
  {
    replies := [];
    match e {
      case AcceptTimeout =>
        entries, stop := [TimedOutAfter(timeout)], Some(TimedOut);
      case AcceptFault(m) =>
        entries, stop := [ErrorReported(SocketFault(m))], Some(Failed(SocketFault(m)));
      case Connection(addr, recv, sendFault) =>
        entries := [ConnectedBy(addr)];
        match recv {
          case RecvFault(m) =>
            entries, stop := entries + [ErrorReported(SocketFault(m))], Some(Failed(SocketFault(m)));
          case Data(data) =>
            if |data| == 0 {
              stop := Some(PeerSentNothing);
            } else if !Utf8.IsValid(data) {
              entries, stop := entries + [ErrorReported(UndecodableData(data))], Some(Failed(UndecodableData(data)));
            } else {
              entries := entries + [ReceivedData(data)];
              if sendFault.Some? {
                var m := sendFault.value;
                entries, stop := entries + [ErrorReported(SocketFault(m))], Some(Failed(SocketFault(m)));
              } else {
                replies, stop := [Reply(addr, data)], None;
              }
            }
        }
    }
  }

  /**
   * `start_server`: bind and listen (a fault there propagates), then accept
   * one client at a time, read one chunk, stop on an empty chunk, otherwise
   * echo it and accept again; a timeout or any other fault ends the loop.
   */
  method StartServer(host: string, port: nat, timeout: nat, bindFault: Option<string>, events: seq<Accept>)
    returns (outcome: ServerOutcome)
    ensures bindFault.Some? ==> outcome == BindRaised(bindFault.value)
    ensures bindFault.None? ==>
      var run := Serve(events, timeout);
      outcome == Served(Run([Listening(host, port)] + run.log, run.replies, run.stop))
  {
    if bindFault.Some? {
      return BindRaised(bindFault.value);
    }
    var log := [Listening(host, port)];
    var replies: seq<Reply> := [];
    var i := 0;
    while i < |events|
      invariant 0 <= i <= |events|
      invariant var whole, rest := Serve(events, timeout), Serve(events[i..], timeout);
        && [Listening(host, port)] + whole.log == log + rest.log
        && whole.replies == replies + rest.replies
        && whole.stop == rest.stop
    {
      var entries, sent, stop := HandleAccept(events[i], timeout);
      assert events[i..][0] == events[i] && events[i..][1..] == events[i + 1..];
      ghost var next := Serve(events[i + 1..], timeout);
      if stop.Some? {
        assert Serve(events[i..], timeout) == Run(entries, sent, stop.value);
        return Served(Run(log + entries, replies + sent, stop.value));
      }
      assert Serve(events[i..], timeout) == Run(entries + next.log, sent + next.replies, next.stop);
      assert log + (entries + next.log) == (log + entries) + next.log;
      assert replies + (sent + next.replies) == (replies + sent) + next.replies;
      log, replies := log + entries, replies + sent;
      i := i + 1;
    }
    assert events[i..] == [];
    outcome := Served(Run(log, replies, TraceEnded));
  }

  // ---------------------------------------------------------------------------
  // Client

  /**
   * The request: a request line, a `Host` header, `Connection: close`, and
   * the empty line that ends the head.  For a host without a line feed it
   * is exactly those four lines, each ended by CR LF.
   */
  function Request(host: string): (r: string)
    ensures '\n' !in host ==>
      Split(r, '\n') == ["GET / HTTP/1.1\r", "Host: " + host + "\r", "Connection: close\r", "\r", ""]
  {
    RequestLines(host);
    "GET / HTTP/1.1\r\nHost: " + host + "\r\nConnection: close\r\n\r\n"
  }

  /** The request text splits at its line feeds into its four CR-terminated lines. */
  lemma RequestLines(host: string)
    ensures '\n' !in host ==>
      Split("GET / HTTP/1.1\r\nHost: " + host + "\r\nConnection: close\r\n\r\n", '\n')
        == ["GET / HTTP/1.1\r", "Host: " + host + "\r", "Connection: close\r", "\r", ""]
  {
    if '\n' !in host {
      RequestText(host);
      SplitLines("GET / HTTP/1.1\r", "Host: " + host + "\r", "Connection: close\r", "\r");
    }
  }

  lemma RequestText(host: string)
    ensures "GET / HTTP/1.1\r\nHost: " + host + "\r\nConnection: close\r\n\r\n"
      == "GET / HTTP/1.1\r" + "\n" + ("Host: " + host + "\r" + "\n" + ("Connection: close\r" + "\n" + ("\r" + "\n" + "")))
  {
  }

  lemma SplitLines(l0: string, l1: string, l2: string, l3: string)
    requires '\n' !in l0 && '\n' !in l1 && '\n' !in l2 && '\n' !in l3
    ensures Split(l0 + "\n" + (l1 + "\n" + (l2 + "\n" + (l3 + "\n" + ""))), '\n') == [l0, l1, l2, l3, ""]
  {
    var r3 := l3 + "\n" + "";
    var r2 := l2 + "\n" + r3;
    var r1 := l1 + "\n" + r2;
    SplitFirst(l3, '\n', "");
    SplitFirst(l2, '\n', r3);
    SplitFirst(l1, '\n', r2);
    SplitFirst(l0, '\n', r1);
  }

  /** What one `recv(1024)` on the client socket reports. */
  datatype Read = Bytes(chunk: Chunk) | ReadFault(message: string)

  /** The end of the read loop: the peer closed, a read raised, or the trace ended first. */
  datatype Drained = PeerClosed(response: seq<byte>) | ReadFailed(message: string) | StillOpen(partial: seq<byte>)

  /** Puts bytes read earlier in front of what the rest of the loop accumulates. */
  function Prefixed(prefix: seq<byte>, d: Drained): Drained {
    match d
    case PeerClosed(r) => PeerClosed(prefix + r)
    case StillOpen(p) => StillOpen(prefix + p)
    case ReadFailed(_) => d
  }

  lemma PrefixedTwice(a: seq<byte>, b: seq<byte>, d: Drained)
    ensures Prefixed(a, Prefixed(b, d)) == Prefixed(a + b, d)
  {
    match d
    case PeerClosed(r) => assert a + (b + r) == a + b + r;
    case StillOpen(p) => assert a + (b + p) == a + b + p;
    case ReadFailed(_) =>
  }

  /** Every read in the trace returned bytes: the peer never closed and no read raised. */
  predicate AllNonEmpty(incoming: seq<Read>) {
    forall j :: 0 <= j < |incoming| ==> incoming[j].Bytes? && |incoming[j].chunk| > 0
  }

  /**
   * The read loop over the remaining trace, as the source's `while True`
   * unrolls: it is still reading at the end exactly when every read returned
   * bytes, and then it holds all of them in order.
   */
  function Drain(incoming: seq<Read>): (d: Drained)
    ensures d.StillOpen? <==> AllNonEmpty(incoming)
    ensures d.StillOpen? ==> AllBytes(incoming) && d.partial == Concat(ChunksOf(incoming))
  {
    if incoming == [] then StillOpen([])
    else match incoming[0]
      case ReadFault(e) => ReadFailed(e)
      case Bytes(c) =>
        if |c| == 0 then PeerClosed([])
        else
          assert forall j :: 1 <= j < |incoming| ==> incoming[j] == incoming[1..][j - 1];
          Prefixed(c, Drain(incoming[1..]))
  }

  /** The concatenation of byte strings, in order. */
  function Concat(chunks: seq<seq<byte>>): seq<byte> {
    if chunks == [] then [] else chunks[0] + Concat(chunks[1..])
  }

  predicate AllBytes(incoming: seq<Read>) {
    forall j :: 0 <= j < |incoming| ==> incoming[j].Bytes?
  }

  function ChunksOf(incoming: seq<Read>): (chunks: seq<seq<byte>>)
    requires AllBytes(incoming)
    ensures |chunks| == |incoming|
  {
    if incoming == [] then [] else [incoming[0].chunk] + ChunksOf(incoming[1..])
  }

  /** The response is every chunk read before the first empty read, concatenated in order. */
  lemma {:induction false} DrainIsConcatenation(incoming: seq<Read>, k: nat)
    requires k < |incoming| && incoming[k] == Bytes([])
    requires AllNonEmpty(incoming[..k])
    ensures Drain(incoming) == PeerClosed(Concat(ChunksOf(incoming[..k])))
  {
    if k > 0 {
      assert incoming[1..][..k - 1] == incoming[..k][1..];
      DrainIsConcatenation(incoming[1..], k - 1);
    }
  }

  /** A read fault before the peer closes discards what was read and reports the fault. */
  lemma {:induction false} DrainReportsFault(incoming: seq<Read>, k: nat)
    requires k < |incoming| && incoming[k].ReadFault?
    requires AllNonEmpty(incoming[..k])
    ensures Drain(incoming) == ReadFailed(incoming[k].message)
  {
    if k > 0 {
      DrainReportsFault(incoming[1..], k - 1);
    }
  }

  /** The accumulation loop: `response += data` until a read returns no bytes. */
  method ReceiveAll(incoming: seq<Read>) returns (d: Drained)
    ensures d == Drain(incoming)
  {
    var response: seq<byte> := [];
    var i := 0;
    while i < |incoming|
      invariant 0 <= i <= |incoming|
      invariant Drain(incoming) == Prefixed(response, Drain(incoming[i..]))
    {
      assert incoming[i..][0] == incoming[i] && incoming[i..][1..] == incoming[i + 1..];
      match incoming[i] {
        case ReadFault(e) =>
          return ReadFailed(e);
        case Bytes(data) =>
          if |data| == 0 {
            assert response + [] == response;
            return PeerClosed(response);
          }
          PrefixedTwice(response, data, Drain(incoming[i + 1..]));
          response := response + data;
      }
      i := i + 1;
    }
    assert incoming[i..] == [];
    assert response + [] == response;
    d := StillOpen(response);
  }

  /** The lines the client prints, by kind. */
  datatype ClientEntry = ConnectedTo(host: string, port: nat) | ReceivedResponse(bytes: seq<byte>) | ClientError(message: string)

  /** What the client sent (once connected) and printed. */
  datatype ClientRun = ClientRun(request: Option<string>, log: seq<ClientEntry>)

  /** What the end of the read loop prints. */
  function DrainLog(d: Drained): seq<ClientEntry> {
    match d
    case PeerClosed(r) => [ReceivedResponse(r)]
    case ReadFailed(e) => [ClientError(e)]
    case StillOpen(_) => []
  }

  /**
   * `connect_to_server`: connect, send the request, read until the peer
   * closes, report the response; a fault at any step is caught and printed.
   */
  method ConnectToServer(host: string, port: nat, connectFault: Option<string>, sendFault: Option<string>, incoming: seq<Read>)
    returns (run: ClientRun)
    ensures connectFault.Some? ==> run == ClientRun(None, [ClientError(connectFault.value)])
    ensures connectFault.None? ==> run.request == Some(Request(host)) && run.log != [] && run.log[0] == ConnectedTo(host, port)
    ensures connectFault.None? && sendFault.Some? ==> run.log == [ConnectedTo(host, port), ClientError(sendFault.value)]
    ensures connectFault.None? && sendFault.None? ==> run.log == [ConnectedTo(host, port)] + DrainLog(Drain(incoming))
  {
    if connectFault.Some? {
      return ClientRun(None, [ClientError(connectFault.value)]);
    }
    var log := [ConnectedTo(host, port)];
    var request := Request(host);
    if sendFault.Some? {
      return ClientRun(Some(request), log + [ClientError(sendFault.value)]);
    }
    var drained := ReceiveAll(incoming);
    match drained {
      case PeerClosed(response) => log := log + [ReceivedResponse(response)];
      case ReadFailed(e) => log := log + [ClientError(e)];
      case StillOpen(_) =>
    }
    run := ClientRun(Some(request), log);
  }
}
