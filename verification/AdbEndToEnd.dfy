/**
 * From bytes to a shell's output: the connection fed with chunks of a byte stream,
 * interleaved with everything else, returns from each shell the data that the other
 * side's messages hold for its stream.
 */
module AdbEndToEnd {
  import opened AdbFraming
  import opened AdbConnection
  import opened AdbShell

  /** A chunk of bytes arrives, or anything else happens. */
  datatype ByteEvent = Chunk(bytes: seq<Byte>) | Other(e: Event)

  datatype ByteNet = ByteNet(net: Net, buffer: seq<Byte>)

  function Deliver(n: Net, ms: seq<Message>): Net {
    if ms == [] then n else OnIncoming(Deliver(n, ms[..|ms| - 1]), ms[|ms| - 1])
  }

  /** Delivering messages routes them, as the connection does with what it parses. */
  lemma {:induction false} DeliverRoutes(n: Net, ms: seq<Message>)
    ensures Deliver(n, ms).conn == RouteAll(n.conn, ms)
  {
    if ms != [] {
      DeliverRoutes(n, ms[..|ms| - 1]);
      hide Route;
    }
  }

  function ByteStep(b: ByteNet, e: ByteEvent): ByteNet {
    match e
    case Chunk(bytes) => ByteNet(Deliver(b.net, ParseAll(b.buffer + bytes).0), ParseAll(b.buffer + bytes).1)
    case Other(e) => if e.Incoming? then b else b.(net := Step(b.net, e))
  }

  function RunBytes(events: seq<ByteEvent>): ByteNet {
    if events == [] then ByteNet(START, []) else ByteStep(RunBytes(events[..|events| - 1]), events[|events| - 1])
  }

  function ChunksOf(events: seq<ByteEvent>): seq<seq<Byte>> {
    if events == [] then []
    else
      var before, e := ChunksOf(events[..|events| - 1]), events[|events| - 1];
      if e.Chunk? then before + [e.bytes] else before
  }

  // -- The same run, message by message --------------------------------------------------

  function Arrivals(ms: seq<Message>): seq<Event> {
    seq(|ms|, i requires 0 <= i < |ms| => Incoming(ms[i]))
  }

  function Parsed(b: ByteNet, e: ByteEvent): seq<Event> {
    match e
    case Chunk(bytes) => Arrivals(ParseAll(b.buffer + bytes).0)
    case Other(e) => if e.Incoming? then [] else [e]
  }

  /** Each chunk replaced by the messages it completes. */
  function Expand(events: seq<ByteEvent>): seq<Event> {
    if events == [] then []
    else
      var before := events[..|events| - 1];
      Expand(before) + Parsed(RunBytes(before), events[|events| - 1])
  }

  function IncomingOf(es: seq<Event>): seq<Message> {
    if es == [] then []
    else
      var before, e := IncomingOf(es[..|es| - 1]), es[|es| - 1];
      if e.Incoming? then before + [e.msg] else before
  }

  lemma RunAppend(es: seq<Event>, e: Event)
    ensures Run(es + [e]) == Step(Run(es), e)
    ensures IncomingOf(es + [e]) == IncomingOf(es) + if e.Incoming? then [e.msg] else []
  {
    assert (es + [e])[..|es|] == es;
    hide Step;
  }

  lemma {:induction false} RunArrivals(es: seq<Event>, ms: seq<Message>)
    ensures Run(es + Arrivals(ms)) == Deliver(Run(es), ms) && IncomingOf(es + Arrivals(ms)) == IncomingOf(es) + ms
  {
    hide Run, OnIncoming, IncomingOf, Arrivals;
    ArrivalsAppend(es, ms);
    if ms != [] {
      var n := |ms| - 1;
      RunArrivals(es, ms[..n]);
      RunAppend(es + Arrivals(ms[..n]), Incoming(ms[n]));
      OneArrives(Run(es + Arrivals(ms[..n])), ms[n]);
      assert ms[..n] + [ms[n]] == ms;
    }
  }

  lemma ArrivalsAppend(es: seq<Event>, ms: seq<Message>)
    ensures ms == [] ==> es + Arrivals(ms) == es
    ensures ms != [] ==>
              var n := |ms| - 1; es + Arrivals(ms) == es + Arrivals(ms[..n]) + [Incoming(ms[n])]
  {
  }

  lemma OneArrives(n: Net, msg: Message)
    ensures Step(n, Incoming(msg)) == OnIncoming(n, msg)
  {
    hide OnIncoming;
  }

  /** A run over bytes is the run over the messages they complete, and keeps the bytes of an incomplete one. */
  lemma {:induction false} BytesAreMessages(events: seq<ByteEvent>)
    ensures RunBytes(events).net == Run(Expand(events))
    ensures (IncomingOf(Expand(events)), RunBytes(events).buffer) == Receive(ChunksOf(events))
  {
    if events != [] {
      var before, e := events[..|events| - 1], events[|events| - 1];
      BytesAreMessages(before);
      hide Run, Step, Deliver, ParseAll, Arrivals;
      match e
      case Chunk(bytes) =>
        RunArrivals(Expand(before), ParseAll(RunBytes(before).buffer + bytes).0);
        ReceiveAppend(ChunksOf(before), bytes);
      case Other(e) =>
        if !e.Incoming? {
          RunAppend(Expand(before), e);
        } else {
          assert Expand(before) + [] == Expand(before);
        }
    }
  }

  lemma ReceiveAppend(chunks: seq<seq<Byte>>, chunk: seq<Byte>)
    ensures var (routed, buf) := Receive(chunks);
            Receive(chunks + [chunk]) == (routed + ParseAll(buf + chunk).0, ParseAll(buf + chunk).1)
  {
    assert (chunks + [chunk])[..|chunks|] == chunks;
    hide ParseAll;
  }

  // -- A stream's own messages -----------------------------------------------------------

  /** Handshake messages belong to stream 0, every other message to the stream its second argument names. */
  predicate IsFor(m: Message, id: U32) {
    if m.command == A_CNXN || m.command == A_AUTH then id == 0 else m.arg1 == id
  }

  /** The messages that belong to a stream. */
  function Of(ms: seq<Message>, id: U32): seq<Message> {
    if ms == [] then []
    else
      var before, m := Of(ms[..|ms| - 1], id), ms[|ms| - 1];
      if IsFor(m, id) then before + [m] else before
  }

  lemma OfAppend(ms: seq<Message>, m: Message, id: U32)
    ensures Of(ms + [m], id) == if IsFor(m, id) then Of(ms, id) + [m] else Of(ms, id)
    ensures IsFor(m, id) <==> TargetOf(m) == id
  {
    assert (ms + [m])[..|ms|] == ms;
  }

  lemma {:induction false} OfPrefix(ms: seq<Message>, k: nat, id: U32)
    requires k <= |ms|
    ensures Of(ms[..k], id) <= Of(ms, id)
  {
    if k == |ms| {
      assert ms[..k] == ms;
    } else {
      OfPrefix(ms[..|ms| - 1], k, id);
      assert ms[..|ms| - 1][..k] == ms[..k];
    }
  }

  /** A stream that is a shell's, or that nobody has opened yet, never has a handler. */
  predicate ShellsOwn(n: Net, id: U32) {
    id in n.shells || id > n.lastId
  }

  lemma OwnedBefore(n: Net, e: Event, id: U32)
    requires ShellsOwn(Step(n, e), id)
    ensures ShellsOwn(n, id)
  {
    hide Route, SentBy;
  }

  lemma RoutedByStep(n: Net, e: Event, id: U32)
    requires Inv(n) && ShellsOwn(n, id)
    ensures HistoryOf(Step(n, e).routed, id)
            == HistoryOf(n.routed, id) + if e.Incoming? && TargetOf(e.msg) == id then [e.msg] else []
  {
    NoHandler(n, id);
    hide Inv, Route, SentBy, ShellsOwn;
    match e
    case Incoming(msg) =>
    case OpenShell(destination) => OpenRoutesNothing(n, destination);
    case ResumeShell(sid) => ResumeRoutesNothing(n, sid);
    case _ =>
  }

  lemma NoHandler(n: Net, id: U32)
    requires Inv(n) && ShellsOwn(n, id)
    ensures id !in n.conn.handlers
  {
    hide HistoryOf, PendingOf, SentBy, ShellSends, ShellRun, Consumed;
    if id in n.shells {
      assert ShellOk(n, id);
    } else {
      assert UnopenedOk(n, id);
    }
  }

  lemma OpenRoutesNothing(n: Net, destination: seq<Byte>)
    ensures OnOpenShell(n, destination).routed == n.routed
  {
  }

  lemma ResumeRoutesNothing(n: Net, id: U32)
    ensures OnResumeShell(n, id).routed == n.routed
  {
    hide HistoryOf, PendingOf;
  }

  /** So what is routed to a shell's stream is what the connection received for it. */
  lemma {:induction false} RoutedAreReceived(es: seq<Event>, id: U32)
    requires ShellsOwn(Run(es), id)
    ensures HistoryOf(Run(es).routed, id) == Of(IncomingOf(es), id)
  {
    hide Step, Inv, ShellsOwn, HistoryOf, TargetOf;
    if es == [] {
      assert HistoryOf(START.routed, id) == [] by { NothingRouted(id); }
    } else {
      var before, e := es[..|es| - 1], es[|es| - 1];
      assert es == before + [e];
      RunAppend(before, e);
      hide Run, IncomingOf, Of;
      OwnedBefore(Run(before), e, id);
      RoutedAreReceived(before, id);
      RunKeepsInv(before);
      RoutedByStep(Run(before), e, id);
      if e.Incoming? {
        OfAppend(IncomingOf(before), e.msg, id);
      }
    }
  }

  lemma NothingRouted(id: U32)
    ensures HistoryOf(START.routed, id) == []
  {
  }

  lemma ReturnsInPrefix(ms: seq<Message>, j: nat, output: seq<seq<Byte>>)
    requires j <= |ms| && Returns(ms[..j], output)
    ensures Returns(ms, output)
  {
    hide ClosesAt;
    var c :| 0 < c < |ms[..j]| && ClosesAt(ms[..j], c, output);
    ClosesInPrefix(ms, j, c, output);
  }

  /**
   * However the other side's bytes are cut into chunks, however much of them has
   * arrived, and whatever else the connection is doing: a shell that returns, returns
   * what that side's messages hold for its stream.
   */
  lemma ShellReturnsItsStream(events: seq<ByteEvent>, msgs: seq<Message>, m: nat, id: U32, output: seq<seq<Byte>>)
    requires AllSendable(msgs) && m <= |EncodeAll(msgs)| && Flatten(ChunksOf(events)) == EncodeAll(msgs)[..m]
    requires id in RunBytes(events).net.shells && RunBytes(events).net.shells[id].phase == Done(output)
    ensures Returns(Of(msgs, id), output)
  {
    hide RunBytes, Run, Receive, ParseAll, EncodeAll, Flatten, Returns;
    var es := Expand(events);
    BytesAreMessages(events);
    ChunkingInvisible(ChunksOf(events));
    var k := PrefixParses(msgs, m);
    RoutedAreReceived(es, id);
    ShellOutput(es, id, output);
    var mine := Of(msgs[..k], id);
    var j :| 0 <= j <= |mine| && Returns(mine[..j], output);
    OfPrefix(msgs, k, id);
    assert mine[..j] == Of(msgs, id)[..j];
    ReturnsInPrefix(Of(msgs, id), j, output);
  }

  // -- Persistent streams ------------------------------------------------------------------

  /** What comes before the first close. */
  function UntilClose(ms: seq<Message>): seq<Message> {
    if ms == [] then []
    else
      var n := |ms| - 1;
      if NoClose(ms[..n]) && ms[n].command != A_CLSE then UntilClose(ms[..n]) + [ms[n]] else UntilClose(ms[..n])
  }

  /** One OKAY for each write, to the stream it came from. */
  function Okays(id: U32, ms: seq<Message>): seq<Message> {
    if ms == [] then []
    else
      var n := |ms| - 1;
      Okays(id, ms[..n]) + if ms[n].command == A_WRTE then [Message(A_OKAY, id, ms[n].arg0, [])] else []
  }

  /**
   * A stream with a handler, on an open connection and among any other messages: the
   * handler is given the data written to the stream until it is closed, in order, each
   * write is acknowledged once, and the first close ends it.
   */
  lemma {:induction false} HandlerGetsItsStream(c: Conn, ms: seq<Message>, id: U32)
    requires id in c.handlers && !c.closed
    ensures var mine, c' := Of(ms, id), RouteAll(c, ms);
            && StreamedOf(c', id) == StreamedOf(c, id) + Payloads(UntilClose(mine))
            && SentBy(c'.sent, id) == SentBy(c.sent, id) + Okays(id, UntilClose(mine))
            && (id in c'.handlers <==> NoClose(mine))
            && !c'.closed
  {
    if ms == [] {
      hide SentBy, StreamedOf;
      assert NoClose([]);
    } else {
      hide *;
      var n := |ms| - 1;
      var m, before, mine := ms[n], RouteAll(c, ms[..n]), Of(ms[..n], id);
      HandlerGetsItsStream(c, ms[..n], id);
      LastRouted(c, ms, id);
      RoutedForHandler(before, m, id);
      OneMoreOfMine(mine, m, id);
      var data := if NoClose(mine) && IsFor(m, id) && m.command == A_WRTE then [m.payload] else [];
      var okay := if NoClose(mine) && IsFor(m, id) && m.command == A_WRTE then [Message(A_OKAY, id, m.arg0, [])] else [];
      Associates(StreamedOf(c, id), Payloads(UntilClose(mine)), data);
      Associates(SentBy(c.sent, id), Okays(id, UntilClose(mine)), okay);
      NothingMore(Payloads(UntilClose(mine)));
      NothingMore(Okays(id, UntilClose(mine)));
    }
  }

  lemma Associates<T>(a: seq<T>, b: seq<T>, c: seq<T>)
    ensures (a + b) + c == a + (b + c)
  {
  }

  lemma NothingMore<T>(a: seq<T>)
    ensures a + [] == a
  {
  }

  lemma LastRouted(c: Conn, ms: seq<Message>, id: U32)
    requires ms != []
    ensures var n := |ms| - 1;
            && RouteAll(c, ms) == Route(RouteAll(c, ms[..n]), ms[n])
            && Of(ms, id) == if IsFor(ms[n], id) then Of(ms[..n], id) + [ms[n]] else Of(ms[..n], id)
  {
    hide Route, IsFor;
  }

  lemma RoutedForHandler(c: Conn, m: Message, id: U32)
    requires !c.closed
    ensures var c' := Route(c, m);
            && StreamedOf(c', id) == StreamedOf(c, id) + (if id in c.handlers && IsFor(m, id) && m.command == A_WRTE then [m.payload] else [])
            && SentBy(c'.sent, id) == SentBy(c.sent, id)
               + (if id in c.handlers && IsFor(m, id) && m.command == A_WRTE then [Message(A_OKAY, id, m.arg0, [])] else [])
            && (id in c'.handlers <==> id in c.handlers && !(IsFor(m, id) && m.command == A_CLSE))
            && !c'.closed
  {
    hide PendingOf, SentBy;
    SentByAppend(c.sent, id, Message(A_OKAY, TargetOf(m), m.arg0, []));
  }

  lemma OneMoreOfMine(mine: seq<Message>, m: Message, id: U32)
    ensures var mine', data := mine + [m], NoClose(mine) && m.command == A_WRTE;
            && (NoClose(mine') <==> NoClose(mine) && m.command != A_CLSE)
            && Payloads(UntilClose(mine')) == Payloads(UntilClose(mine)) + (if data then [m.payload] else [])
            && Okays(id, UntilClose(mine'))
               == Okays(id, UntilClose(mine)) + (if data then [Message(A_OKAY, id, m.arg0, [])] else [])
  {
    PayloadsAppend(mine, m);
    assert (mine + [m])[..|mine|] == mine;
    var before := UntilClose(mine);
    assert UntilClose(mine + [m]) == if NoClose(mine) && m.command != A_CLSE then before + [m] else before;
    hide UntilClose, NoClose, Payloads;
    PayloadsAppend(before, m);
    assert (before + [m])[..|before|] == before;
    assert Okays(id, before + [m]) == Okays(id, before) + if m.command == A_WRTE then [Message(A_OKAY, id, m.arg0, [])] else [];
  }

  /** And there is only one such output. */
  lemma OneOutput(ms: seq<Message>, output: seq<seq<Byte>>, output': seq<seq<Byte>>)
    requires Returns(ms, output) && Returns(ms, output')
    ensures output == output'
  {
    DoneMeans(ms, output);
    DoneMeans(ms, output');
    hide Returns, ShellRun;
  }
}
