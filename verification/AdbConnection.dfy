/**
 * One ADB connection: routing of parsed messages to one-shot waiters, persistent
 * stream handlers and pending queues. The functions say what each operation does to
 * the connection; the class performs it by field updates and is proved against them.
 */
module AdbConnection {
  import opened Wrappers
  import opened AdbFraming

  /** A settled read: the message it resolved with, or a rejection. */
  datatype Delivery = Received(msg: Message) | Rejected

  /**
   * `waiting` holds the streams with a registered waiter, `inbox` the reads that have
   * settled but whose caller has not resumed yet, `streamed` what persistent handlers
   * were given, `sent` the messages written to the transport.
   */
  datatype Conn = Conn(
    closed: bool,
    waiting: set<U32>,
    handlers: set<U32>,
    pending: map<U32, seq<Message>>,
    inbox: map<U32, Delivery>,
    streamed: map<U32, seq<seq<Byte>>>,
    sent: seq<Message>)

  function PendingOf(c: Conn, id: U32): seq<Message> {
    if id in c.pending then c.pending[id] else []
  }

  function StreamedOf(c: Conn, id: U32): seq<seq<Byte>> {
    if id in c.streamed then c.streamed[id] else []
  }

  /** Handshake messages belong to stream 0, everything else carries our id in arg1. */
  function TargetOf(msg: Message): U32 {
    if msg.command == A_CNXN || msg.command == A_AUTH then 0 else msg.arg1
  }

  function Send(c: Conn, msg: Message): Conn {
    if c.closed then c else c.(sent := c.sent + [msg])
  }

  function Route(c: Conn, msg: Message): Conn {
    var id := TargetOf(msg);
    if id in c.handlers && msg.command == A_WRTE then
      Send(c.(streamed := c.streamed[id := StreamedOf(c, id) + [msg.payload]]), Message(A_OKAY, id, msg.arg0, []))
    else if id in c.handlers && msg.command == A_CLSE then
      c.(handlers := c.handlers - {id})
    else if id in c.waiting then
      c.(waiting := c.waiting - {id}, inbox := c.inbox[id := Received(msg)])
    else
      c.(pending := c.pending[id := PendingOf(c, id) + [msg]])
  }

  function RouteAll(c: Conn, msgs: seq<Message>): Conn {
    if msgs == [] then c else Route(RouteAll(c, msgs[..|msgs| - 1]), msgs[|msgs| - 1])
  }

  lemma {:induction false} RouteAllConcat(c: Conn, a: seq<Message>, b: seq<Message>)
    ensures RouteAll(c, a + b) == RouteAll(RouteAll(c, a), b)
  {
    if b == [] {
      assert a + b == a;
    } else {
      var n := |b| - 1;
      assert (a + b)[..|a + b| - 1] == a + b[..n];
      RouteAllConcat(c, a, b[..n]);
    }
  }

  /** A read takes the oldest queued message at once, or registers a waiter. */
  function Read(c: Conn, id: U32): Conn {
    var queue := PendingOf(c, id);
    if queue == [] then
      c.(waiting := c.waiting + {id})
    else
      c.(pending := if |queue| == 1 then c.pending - {id} else c.pending[id := queue[1..]],
         inbox := c.inbox[id := Received(queue[0])])
  }

  function Cleanup(c: Conn, id: U32): Conn {
    c.(waiting := c.waiting - {id}, handlers := c.handlers - {id}, pending := c.pending - {id})
  }

  function Resumed(c: Conn, id: U32): Conn {
    c.(inbox := c.inbox - {id})
  }

  function Reject(c: Conn, ids: set<U32>): Conn {
    c.(waiting := c.waiting - ids, inbox := map id | id in c.inbox.Keys + ids ::
                                              if id in ids then Rejected else c.inbox[id])
  }

  /** The transport went away: every waiter is rejected and every handler dropped. */
  function IoClosed(c: Conn): Conn {
    if c.closed then c else Reject(c, c.waiting).(closed := true, handlers := {})
  }

  /** Our own close: handlers are dropped, waiters are left to their timers. */
  function CloseCalled(c: Conn): Conn {
    if c.closed then c else c.(closed := true, handlers := {})
  }

  /** Feeding a whole byte stream routes exactly what parsing all of it at once would. */
  lemma ChunksRoute(c: Conn, chunks: seq<seq<Byte>>, i: nat)
    requires i < |chunks|
    ensures var (routed, buf) := Receive(chunks[..i]);
            RouteAll(c, Receive(chunks[..i + 1]).0)
            == RouteAll(RouteAll(c, routed), ParseAll(buf + chunks[i]).0)
  {
    assert chunks[..i + 1][..i] == chunks[..i];
    RouteAllConcat(c, Receive(chunks[..i]).0, ParseAll(Receive(chunks[..i]).1 + chunks[i]).0);
  }

  lemma NothingRouted(c: Conn)
    ensures RouteAll(c, []) == c
  {
  }

  lemma OneMoreRouted(buf: seq<Byte>, msg: Message, rest: seq<Byte>, c: Conn, routed: seq<Message>)
    requires ParseOne(buf) == Some((msg, rest))
    ensures |rest| < |buf|
    ensures (routed + ParseAll(buf).0, ParseAll(buf).1) == (routed + [msg] + ParseAll(rest).0, ParseAll(rest).1)
    ensures RouteAll(c, routed + [msg]) == Route(RouteAll(c, routed), msg)
  {
    assert (routed + [msg])[..|routed|] == routed;
    assert routed + ([msg] + ParseAll(rest).0) == routed + [msg] + ParseAll(rest).0;
  }

  // -- What the transport is given ---------------------------------------------------------

  /** The two writes that send a message: its header, then its payload unless it is empty. */
  function WritesOf(msg: Message): seq<seq<Byte>>
    requires Sendable(msg.payload)
  {
    [Encode(msg)[..24]] + if msg.payload == [] then [] else [msg.payload]
  }

  /** The bytes written are the messages sent, serialized one after the other. */
  ghost predicate OnWire(sent: seq<Message>, writes: seq<seq<Byte>>) {
    AllSendable(sent) && Flatten(writes) == EncodeAll(sent)
  }

  lemma NothingOnWire()
    ensures OnWire([], [])
  {
  }

  lemma OneMoreOnWire(sent: seq<Message>, writes: seq<seq<Byte>>, msg: Message)
    requires OnWire(sent, writes) && Sendable(msg.payload)
    ensures OnWire(sent + [msg], writes + WritesOf(msg))
  {
    EncodeAllAppend(sent, msg);
    EncodeEndsInPayload(msg);
    hide Encode, EncodeAll, Sendable, Flatten, AllSendable;
    TwoWrites(writes, Encode(msg)[..24], msg.payload);
  }

  lemma TwoWrites(writes: seq<seq<Byte>>, header: seq<Byte>, payload: seq<Byte>)
    ensures Flatten(writes + ([header] + if payload == [] then [] else [payload])) == Flatten(writes) + (header + payload)
  {
    FlattenAppend(writes, header);
    FlattenAppend(writes + [header], payload);
    hide Flatten;
    if payload == [] {
      assert writes + ([header] + []) == writes + [header];
    } else {
      assert writes + ([header] + [payload]) == writes + [header] + [payload];
    }
  }

  lemma EncodeEndsInPayload(msg: Message)
    requires Sendable(msg.payload)
    ensures Encode(msg) == Encode(msg)[..24] + msg.payload
  {
    WireFormat(msg);
    hide Encode;
    assert Encode(msg) == Encode(msg)[..24] + Encode(msg)[24..];
  }

  lemma FlattenAppend(writes: seq<seq<Byte>>, w: seq<Byte>)
    ensures Flatten(writes + [w]) == Flatten(writes) + w
  {
    assert (writes + [w])[..|writes|] == writes;
  }

  lemma {:induction false} EncodeAllAppend(sent: seq<Message>, msg: Message)
    requires AllSendable(sent) && Sendable(msg.payload)
    ensures AllSendable(sent + [msg]) && EncodeAll(sent + [msg]) == EncodeAll(sent) + Encode(msg)
  {
    hide Encode, Sendable;
    assert AllSendable(sent + [msg]);
    if sent == [] {
      assert sent + [msg] == [msg] && [msg][1..] == [];
      assert EncodeAll([]) == [];
    } else {
      assert (sent + [msg])[1..] == sent[1..] + [msg];
      EncodeAllAppend(sent[1..], msg);
    }
  }

  class Connection {
    var closed: bool
    var buffer: seq<Byte>
    var waiting: set<U32>
    var handlers: set<U32>
    var pending: map<U32, seq<Message>>
    var inbox: map<U32, Delivery>
    var streamed: map<U32, seq<seq<Byte>>>
    var sent: seq<Message>
    var writes: seq<seq<Byte>>

    function View(): Conn
      reads this
    {
      Conn(closed, waiting, handlers, pending, inbox, streamed, sent)
    }

    /** Queues in the pending map are never empty, and what was written is what was sent. */
    ghost predicate Consistent()
      reads this`pending, this`sent, this`writes
    {
      (forall id | id in pending :: pending[id] != []) && OnWire(sent, writes)
    }

    /** Between operations the buffer also holds no whole message. */
    ghost predicate Valid()
      reads this
    {
      Consistent() && ParseOne(buffer).None?
    }

    constructor ()
      ensures Valid() && View() == Conn(false, {}, {}, map[], map[], map[], []) && buffer == []
    {
      closed, buffer, waiting, handlers := false, [], {}, {};
      pending, inbox, streamed, sent, writes := map[], map[], map[], [], [];
      NothingOnWire();
    }

    /** Header and payload are two writes; `threw` is a header field out of range. */
    method SendMessage(msg: Message) returns (threw: bool)
      modifies this`sent, this`writes
      ensures threw <==> !closed && !Sendable(msg.payload)
      ensures View() == if threw then old(View()) else Send(old(View()), msg)
      ensures writes == old(writes) + if closed || threw then [] else WritesOf(msg)
      ensures old(Consistent()) ==> Consistent()
    {
      hide OnWire, Encode;
      if closed {
        return false;
      }
      var header := SerializeHeader(msg.command, msg.arg0, msg.arg1, msg.payload);
      if header.None? {
        return true;
      }
      assert header.value == Encode(msg)[..24];
      if OnWire(sent, writes) {
        OneMoreOnWire(sent, writes, msg);
      }
      sent := sent + [msg];
      writes := writes + [header.value];
      if msg.payload != [] {
        writes := writes + [msg.payload];
      }
      return false;
    }

    method TakePending(id: U32) returns (msg: Option<Message>)
      requires Consistent()
      modifies this`pending
      ensures Consistent()
      ensures msg.None? <==> PendingOf(old(View()), id) == []
      ensures msg.None? ==> View() == old(View())
      ensures msg.Some? ==>
                && [msg.value] + PendingOf(View(), id) == PendingOf(old(View()), id)
                && View().(inbox := inbox[id := Received(msg.value)]) == Read(old(View()), id)
    {
      if id !in pending {
        return None;
      }
      var queue := pending[id];
      msg := Some(queue[0]);
      queue := queue[1..];
      if queue == [] {
        pending := pending - {id};
      } else {
        pending := pending[id := queue];
      }
    }

    method CleanupStream(id: U32)
      requires Valid()
      modifies this`waiting, this`handlers, this`pending
      ensures Valid() && View() == Cleanup(old(View()), id)
    {
      waiting := waiting - {id};
      handlers := handlers - {id};
      pending := pending - {id};
    }

    method RouteMessage(msg: Message)
      requires Consistent()
      modifies this`waiting, this`handlers, this`pending, this`inbox, this`streamed, this`sent, this`writes
      ensures Consistent()
      ensures View() == Route(old(View()), msg)
    {
      hide OnWire;
      var targetId := if msg.command == A_CNXN || msg.command == A_AUTH then 0 else msg.arg1;
      if targetId in handlers {
        if msg.command == A_WRTE {
          var before := if targetId in streamed then streamed[targetId] else [];
          streamed := streamed[targetId := before + [msg.payload]];
          CapIsSendable([]);
          var threw := SendMessage(Message(A_OKAY, targetId, msg.arg0, []));
          return;
        }
        if msg.command == A_CLSE {
          handlers := handlers - {targetId};
          return;
        }
      }
      if targetId in waiting {
        waiting := waiting - {targetId};
        inbox := inbox[targetId := Received(msg)];
        return;
      }
      var queue := if targetId in pending then pending[targetId] else [];
      pending := pending[targetId := queue + [msg]];
    }

    method TryParseMessage() returns (msg: Option<Message>)
      modifies this`buffer
      ensures ParseOne(old(buffer)).None? ==> msg.None? && buffer == old(buffer)
      ensures ParseOne(old(buffer)).Some? ==> msg.Some? && ParseOne(old(buffer)).value == (msg.value, buffer)
    {
      if |buffer| < HEADER_SIZE {
        return None;
      }
      var dataLength := ReadLE32(buffer, 12);
      var totalLength := HEADER_SIZE + dataLength;
      if |buffer| < totalLength {
        return None;
      }
      msg := Some(Message(ReadLE32(buffer, 0), ReadLE32(buffer, 4), ReadLE32(buffer, 8),
                          buffer[HEADER_SIZE..totalLength]));
      buffer := buffer[totalLength..];
    }

    /** Route every whole message in the buffer. */
    method DrainBuffer()
      requires Consistent()
      modifies this
      ensures Valid()
      ensures View() == RouteAll(old(View()), ParseAll(old(buffer)).0)
      ensures buffer == ParseAll(old(buffer)).1
    {
      hide ParseAll, ParseOne, RouteAll, Route;
      ghost var routed: seq<Message> := [];
      NothingRouted(View());
      LeftOverIsIncomplete(buffer);
      assert [] + ParseAll(buffer).0 == ParseAll(buffer).0;
      while true
        invariant Consistent()
        invariant View() == RouteAll(old(View()), routed)
        invariant ParseAll(old(buffer)) == (routed + ParseAll(buffer).0, ParseAll(buffer).1)
        decreases |buffer|
      {
        ghost var before := buffer;
        var msg := TryParseMessage();
        if msg.None? {
          ParseNothing(buffer);
          assert routed + [] == routed;
          break;
        }
        RouteMessage(msg.value);
        OneMoreRouted(before, msg.value, buffer, old(View()), routed);
        routed := routed + [msg.value];
      }
    }

    method OnData(chunk: seq<Byte>)
      requires Valid()
      modifies this
      ensures Valid()
      ensures View() == RouteAll(old(View()), ParseAll(old(buffer) + chunk).0)
      ensures buffer == ParseAll(old(buffer) + chunk).1
    {
      buffer := buffer + chunk;
      DrainBuffer();
    }

    /**
     * Read the next message of a stream, draining the buffer first if nothing is
     * queued. Between operations that drain finds nothing, since every chunk is
     * drained on arrival.
     */
    method ReadStreamMessage(id: U32)
      requires Consistent()
      modifies this
      ensures Consistent()
      ensures old(PendingOf(View(), id)) != [] ==> View() == Read(old(View()), id) && buffer == old(buffer)
      ensures old(PendingOf(View(), id)) == [] ==>
                && View() == Read(RouteAll(old(View()), ParseAll(old(buffer)).0), id)
                && buffer == ParseAll(old(buffer)).1
      ensures old(Valid()) ==> Valid() && View() == Read(old(View()), id) && buffer == old(buffer)
    {
      var queued := TakePending(id);
      if queued.Some? {
        inbox := inbox[id := Received(queued.value)];
        return;
      }
      DrainBuffer();
      var queuedAfterDrain := TakePending(id);
      if queuedAfterDrain.Some? {
        inbox := inbox[id := Received(queuedAfterDrain.value)];
        return;
      }
      waiting := waiting + {id};
    }

    method OnClose()
      requires Valid()
      modifies this
      ensures Valid() && View() == IoClosed(old(View())) && buffer == old(buffer)
    {
      if closed {
        return;
      }
      closed := true;
      inbox := map id | id in inbox.Keys + waiting :: if id in waiting then Rejected else inbox[id];
      waiting := {};
      handlers := {};
    }

    method Close()
      requires Valid()
      modifies this
      ensures Valid() && View() == CloseCalled(old(View())) && buffer == old(buffer)
    {
      if closed {
        return;
      }
      closed := true;
      handlers := {};
    }
  }
}
