/**
 * Concurrent shell commands over one connection. Each `await` of openShell is a
 * separate step, so any number of shells, persistent streams and incoming messages
 * interleave arbitrarily. What a shell returns is proved to depend only on the
 * messages routed to its own stream.
 */
module AdbShell {
  import opened AdbFraming
  import opened AdbConnection

  datatype Phase =
    | AwaitOkay
    | Reading(remoteId: U32, chunks: seq<seq<Byte>>)
    | Done(output: seq<seq<Byte>>)
    | Refused
    | TimedOut

  datatype Shell = Shell(destination: seq<Byte>, phase: Phase)

  predicate Live(p: Phase) {
    p.AwaitOkay? || p.Reading?
  }

  /**
   * `routed` and `handed` are history: every message routed to a stream (and not
   * taken by a persistent handler), and every message its reads have resolved with.
   */
  datatype Net = Net(
    conn: Conn,
    lastId: nat,
    shells: map<U32, Shell>,
    routed: map<U32, seq<Message>>,
    handed: map<U32, seq<Message>>)

  function HistoryOf(h: map<U32, seq<Message>>, id: U32): seq<Message> {
    if id in h then h[id] else []
  }

  datatype Event =
    | Incoming(msg: Message)
    | OpenShell(destination: seq<Byte>)
    | ResumeShell(id: U32)
    | Timeout(id: U32)
    | IoClose
    | CallClose
    | OpenOther(destination: seq<Byte>)
    | OtherRead(id: U32)
    | OtherResumes(id: U32)
    | RegisterHandler(id: U32)
    | CloseOther(id: U32, remoteId: U32)
    | OtherWrites(id: U32, remoteId: U32, data: seq<Byte>)

  // -- Steps ------------------------------------------------------------------------

  /** Whether the connection keeps a message for reads, rather than giving it to a handler. */
  predicate ForReads(c: Conn, msg: Message) {
    !(TargetOf(msg) in c.handlers && (msg.command == A_WRTE || msg.command == A_CLSE))
  }

  function Append(h: map<U32, seq<Message>>, id: U32, m: Message): map<U32, seq<Message>> {
    h[id := HistoryOf(h, id) + [m]]
  }

  function OnIncoming(n: Net, msg: Message): Net {
    var id := TargetOf(msg);
    if !ForReads(n.conn, msg) then n.(conn := Route(n.conn, msg))
    else n.(conn := Route(n.conn, msg),
            routed := Append(n.routed, id, msg),
            handed := if id in n.conn.waiting then Append(n.handed, id, msg) else n.handed)
  }

  /** A read by the owner of stream `id`, with its history. */
  function DoRead(n: Net, id: U32): Net {
    n.(conn := Read(n.conn, id),
       handed := if PendingOf(n.conn, id) == [] then n.handed
                 else Append(n.handed, id, PendingOf(n.conn, id)[0]))
  }

  /** Sending OPEN can only fail on a header field out of range; the stream id is used up either way. */
  function OnOpenShell(n: Net, destination: seq<Byte>): Net {
    if n.conn.closed then n
    else if n.lastId + 1 >= 0x1_0000_0000 || !Sendable(destination) then n.(lastId := n.lastId + 1)
    else
      var id: U32 := n.lastId + 1;
      var started := n.(lastId := n.lastId + 1,
                       shells := n.shells[id := Shell(destination, AwaitOkay)],
                       conn := Send(n.conn, Message(A_OPEN, id, 0, destination)));
      DoRead(started, id)
  }

  function SetPhase(n: Net, id: U32, p: Phase): Net
    requires id in n.shells
  {
    n.(shells := n.shells[id := n.shells[id].(phase := p)])
  }

  /** The continuation of a shell's pending read runs. */
  function OnResumeShell(n0: Net, id: U32): Net {
    if id !in n0.shells || id !in n0.conn.inbox then n0
    else
      var n := n0.(conn := Resumed(n0.conn, id));
      match (n0.conn.inbox[id], n0.shells[id].phase)
      case (Rejected, Reading(_, _)) => SetPhase(n.(conn := Cleanup(n.conn, id)), id, TimedOut)
      case (Rejected, _) => SetPhase(n, id, TimedOut)
      case (Received(msg), AwaitOkay) =>
        if msg.command == A_OKAY then DoRead(SetPhase(n, id, Reading(msg.arg0, [])), id)
        else SetPhase(n.(conn := Cleanup(n.conn, id)), id, Refused)
      case (Received(msg), Reading(remoteId, chunks)) =>
        if msg.command == A_WRTE then
          var acked := n.(conn := Send(n.conn, Message(A_OKAY, id, remoteId, [])));
          DoRead(SetPhase(acked, id, Reading(remoteId, chunks + [msg.payload])), id)
        else if msg.command == A_CLSE then
          var said := n.(conn := Send(n.conn, Message(A_CLSE, id, remoteId, [])));
          SetPhase(said.(conn := Cleanup(said.conn, id)), id, Done(chunks))
        else DoRead(n, id)
      case (Received(_), _) => n
  }

  /** A stream opened by someone other than a shell; shells never share its id. */
  predicate IsOther(n: Net, id: U32) {
    id <= n.lastId && id !in n.shells
  }

  function Step(n: Net, e: Event): Net {
    match e
    case Incoming(msg) => OnIncoming(n, msg)
    case OpenShell(destination) => OnOpenShell(n, destination)
    case ResumeShell(id) => OnResumeShell(n, id)
    case Timeout(id) => if id in n.conn.waiting then n.(conn := Reject(n.conn, {id})) else n
    case IoClose => n.(conn := IoClosed(n.conn))
    case CallClose => n.(conn := CloseCalled(n.conn))
    case OpenOther(destination) =>
      if n.conn.closed then n
      else if n.lastId + 1 >= 0x1_0000_0000 || !Sendable(destination) then n.(lastId := n.lastId + 1)
      else
        var id: U32 := n.lastId + 1;
        DoRead(n.(lastId := n.lastId + 1, conn := Send(n.conn, Message(A_OPEN, id, 0, destination))), id)
    case OtherRead(id) => if IsOther(n, id) then DoRead(n, id) else n
    case OtherResumes(id) => if IsOther(n, id) then n.(conn := Resumed(n.conn, id)) else n
    case RegisterHandler(id) =>
      if IsOther(n, id) then n.(conn := n.conn.(handlers := n.conn.handlers + {id})) else n
    case CloseOther(id, remoteId) =>
      if IsOther(n, id) then
        var c := n.conn.(handlers := n.conn.handlers - {id}, pending := n.conn.pending - {id});
        n.(conn := Send(c, Message(A_CLSE, id, remoteId, [])))
      else n
    case OtherWrites(id, remoteId, data) =>
      if IsOther(n, id) && Sendable(data) then n.(conn := Send(n.conn, Message(A_WRTE, id, remoteId, data))) else n
  }

  const START: Net := Net(Conn(false, {}, {}, map[], map[], map[], []), 0, map[], map[], map[])

  function Run(events: seq<Event>): Net {
    if events == [] then START else Step(Run(events[..|events| - 1]), events[|events| - 1])
  }

  // -- What a shell is meant to compute from its own messages ------------------------------

  function ShellStep(p: Phase, m: Message): Phase {
    match p
    case AwaitOkay => if m.command == A_OKAY then Reading(m.arg0, []) else Refused
    case Reading(remoteId, chunks) =>
      if m.command == A_WRTE then Reading(remoteId, chunks + [m.payload])
      else if m.command == A_CLSE then Done(chunks)
      else p
    case _ => p
  }

  function ShellRun(ms: seq<Message>): Phase {
    if ms == [] then AwaitOkay else ShellStep(ShellRun(ms[..|ms| - 1]), ms[|ms| - 1])
  }

  function Payloads(ms: seq<Message>): seq<seq<Byte>> {
    if ms == [] then []
    else
      var before := Payloads(ms[..|ms| - 1]);
      if ms[|ms| - 1].command == A_WRTE then before + [ms[|ms| - 1].payload] else before
  }

  predicate NoClose(ms: seq<Message>) {
    forall m | m in ms :: m.command != A_CLSE
  }

  /**
   * A shell's result in closed form: accepted by its first message, finished by the
   * first close after it, returning the data written in between, in order.
   */
  ghost predicate Returns(ms: seq<Message>, output: seq<seq<Byte>>) {
    exists c :: 0 < c < |ms| && ClosesAt(ms, c, output)
  }

  predicate ClosesAt(ms: seq<Message>, c: nat, output: seq<seq<Byte>>)
    requires 0 < c < |ms|
  {
    ms[0].command == A_OKAY && ms[c].command == A_CLSE && NoClose(ms[1..c]) && output == Payloads(ms[1..c])
  }

  /** Where a stream closes does not depend on what comes later. */
  lemma ClosesInPrefix(ms: seq<Message>, n: nat, c: nat, output: seq<seq<Byte>>)
    requires 0 < c < n <= |ms|
    ensures ClosesAt(ms[..n], c, output) <==> ClosesAt(ms, c, output)
  {
    assert ms[..n][1..c] == ms[1..c];
  }

  lemma PayloadsAppend(ms: seq<Message>, m: Message)
    ensures Payloads(ms + [m]) == if m.command == A_WRTE then Payloads(ms) + [m.payload] else Payloads(ms)
    ensures NoClose(ms + [m]) <==> NoClose(ms) && m.command != A_CLSE
  {
    assert (ms + [m])[..|ms|] == ms;
    assert m in ms + [m];
    assert forall x | x in ms :: x in ms + [m];
  }

  lemma {:induction false} ReadingMeans(ms: seq<Message>)
    ensures ShellRun(ms).Reading? <==> ms != [] && ms[0].command == A_OKAY && NoClose(ms[1..])
    ensures ShellRun(ms).Reading? ==> ShellRun(ms) == Reading(ms[0].arg0, Payloads(ms[1..]))
    ensures ShellRun(ms).AwaitOkay? <==> ms == []
  {
    if |ms| == 1 {
      assert ms[..0] == [] && ms[1..] == [];
      assert ShellRun(ms) == ShellStep(AwaitOkay, ms[0]);
    } else if ms != [] {
      var n := |ms| - 1;
      var before := ms[..n];
      ReadingMeans(before);
      PayloadsAppend(before[1..], ms[n]);
      assert ms[1..] == before[1..] + [ms[n]] && before[0] == ms[0];
      hide NoClose, Payloads;
      assert ShellRun(ms) == ShellStep(ShellRun(before), ms[n]);
    }
  }

  lemma {:induction false} DoneMeans(ms: seq<Message>, output: seq<seq<Byte>>)
    ensures ShellRun(ms) == Done(output) <==> Returns(ms, output)
  {
    if ms != [] {
      var n := |ms| - 1;
      var before := ms[..n];
      DoneMeans(before, output);
      ReadingMeans(before);
      ClosesLast(ms, output);
      hide ClosesAt, NoClose, Payloads, ShellRun;
      assert Returns(ms, output) <==> Returns(before, output) || (n > 0 && ClosesAt(ms, n, output)) by {
        forall c | 0 < c < n ensures ClosesAt(before, c, output) <==> ClosesAt(ms, c, output) {
          ClosesInPrefix(ms, n, c, output);
        }
      }
    }
  }

  /** The last message finishes a shell exactly when it closes a stream that was being read. */
  lemma ClosesLast(ms: seq<Message>, output: seq<seq<Byte>>)
    requires ms != []
    ensures var n := |ms| - 1;
            ShellRun(ms) == Done(output) <==> ShellRun(ms[..n]) == Done(output) || (n > 0 && ClosesAt(ms, n, output))
  {
    var n := |ms| - 1;
    ReadingMeans(ms[..n]);
    assert n > 0 ==> ms[..n][1..] == ms[1..n] && ms[..n][0] == ms[0];
    assert n == 0 ==> ShellRun(ms[..n]) == AwaitOkay;
    assert ShellRun(ms) == ShellStep(ShellRun(ms[..n]), ms[n]);
    hide ShellRun, NoClose, Payloads;
  }

  // -- What a shell sends --------------------------------------------------------------

  function SentBy(sent: seq<Message>, id: U32): seq<Message> {
    if sent == [] then []
    else
      var before := SentBy(sent[..|sent| - 1], id);
      if sent[|sent| - 1].arg0 == id then before + [sent[|sent| - 1]] else before
  }

  lemma SentByAppend(sent: seq<Message>, id: U32, m: Message)
    ensures SentBy(sent + [m], id) == if m.arg0 == id then SentBy(sent, id) + [m] else SentBy(sent, id)
  {
    assert (sent + [m])[..|sent|] == sent;
  }

  /** One OPEN, one OKAY for each write consumed, one CLSE on finishing. */
  function ShellSends(id: U32, destination: seq<Byte>, ms: seq<Message>): seq<Message> {
    if ms == [] then [Message(A_OPEN, id, 0, destination)]
    else
      var n := |ms| - 1;
      var before := ShellSends(id, destination, ms[..n]);
      match ShellRun(ms[..n])
      case Reading(remoteId, _) =>
        if ms[n].command == A_WRTE then before + [Message(A_OKAY, id, remoteId, [])]
        else if ms[n].command == A_CLSE then before + [Message(A_CLSE, id, remoteId, [])]
        else before
      case _ => before
  }

  function Repeat(m: Message, n: nat): seq<Message> {
    seq(n, _ => m)
  }

  /** All a shell has sent, by how far it has come, addressed to the stream its first message came from. */
  lemma {:induction false} SendsMean(id: U32, destination: seq<Byte>, ms: seq<Message>)
    ensures var open := [Message(A_OPEN, id, 0, destination)];
            match ShellRun(ms)
            case Reading(_, chunks) =>
              && ms != []
              && ShellSends(id, destination, ms) == open + Repeat(Message(A_OKAY, id, ms[0].arg0, []), |chunks|)
            case Done(output) =>
              && ms != []
              && ShellSends(id, destination, ms)
                 == open + Repeat(Message(A_OKAY, id, ms[0].arg0, []), |output|) + [Message(A_CLSE, id, ms[0].arg0, [])]
            case _ => ShellSends(id, destination, ms) == open
  {
    if ms != [] {
      var n := |ms| - 1;
      SendsMean(id, destination, ms[..n]);
      ReadingMeans(ms[..n]);
      hide Payloads, NoClose;
      if ShellRun(ms[..n]).Reading? {
        assert ms[..n][0] == ms[0];
        var okay, k := Message(A_OKAY, id, ms[0].arg0, []), |ShellRun(ms[..n]).chunks|;
        assert Repeat(okay, k + 1) == Repeat(okay, k) + [okay];
      } else {
        assert ShellSends(id, destination, ms) == ShellSends(id, destination, ms[..n]);
      }
    }
  }

  // -- The invariant -------------------------------------------------------------------

  /** The messages a shell has acted on: those handed over, less one still in its inbox. */
  function Consumed(n: Net, id: U32): seq<Message> {
    var handed := HistoryOf(n.handed, id);
    if id in n.conn.inbox && n.conn.inbox[id].Received? && handed != [] then handed[..|handed| - 1] else handed
  }

  ghost predicate ShellOk(n: Net, id: U32)
    requires id in n.shells
  {
    var s := n.shells[id];
    var handed := HistoryOf(n.handed, id);
    && 0 < id <= n.lastId && id !in n.conn.handlers
    && handed <= HistoryOf(n.routed, id)
    && (id in n.conn.inbox && n.conn.inbox[id].Received? ==>
          handed != [] && handed[|handed| - 1] == n.conn.inbox[id].msg)
    && (Live(s.phase) ==>
          && handed + PendingOf(n.conn, id) == HistoryOf(n.routed, id)
          && (id in n.conn.waiting <==> id !in n.conn.inbox)
          && (id in n.conn.waiting ==> PendingOf(n.conn, id) == []))
    && (!Live(s.phase) ==> id !in n.conn.waiting && id !in n.conn.inbox)
    && (s.phase != TimedOut ==> s.phase == ShellRun(Consumed(n, id)))
    && SentBy(n.conn.sent, id) <= ShellSends(id, s.destination, Consumed(n, id))
    && (!n.conn.closed ==> SentBy(n.conn.sent, id) == ShellSends(id, s.destination, Consumed(n, id)))
  }

  /** Streams not yet opened have only queued messages, if any, and have sent nothing. */
  ghost predicate UnopenedOk(n: Net, id: U32) {
    && id !in n.shells && id !in n.conn.waiting && id !in n.conn.inbox && id !in n.conn.handlers
    && HistoryOf(n.handed, id) == [] && PendingOf(n.conn, id) == HistoryOf(n.routed, id)
    && SentBy(n.conn.sent, id) == []
  }

  ghost predicate QueuesNonEmpty(c: Conn) {
    forall id | id in c.pending :: c.pending[id] != []
  }

  ghost predicate Inv(n: Net) {
    && QueuesNonEmpty(n.conn)
    && (forall id | id in n.shells :: ShellOk(n, id))
    && (forall id: U32 | id > n.lastId :: UnopenedOk(n, id))
  }

  /** Nothing about stream `id` differs, except that the connection may have closed. */
  ghost predicate SameFor(n: Net, n': Net, id: U32) {
    && n.lastId <= n'.lastId && (n.conn.closed ==> n'.conn.closed)
    && (id in n'.shells <==> id in n.shells) && (id in n.shells ==> n'.shells[id] == n.shells[id])
    && (id in n'.conn.waiting <==> id in n.conn.waiting)
    && (id in n'.conn.handlers <==> id in n.conn.handlers)
    && (id in n'.conn.inbox <==> id in n.conn.inbox)
    && (id in n.conn.inbox ==> n'.conn.inbox[id] == n.conn.inbox[id])
    && PendingOf(n'.conn, id) == PendingOf(n.conn, id)
    && HistoryOf(n'.routed, id) == HistoryOf(n.routed, id)
    && HistoryOf(n'.handed, id) == HistoryOf(n.handed, id)
    && SentBy(n'.conn.sent, id) == SentBy(n.conn.sent, id)
  }

  ghost predicate SameExcept(n: Net, n': Net, subject: int) {
    forall id: U32 | id != subject :: SameFor(n, n', id)
  }

  lemma FrameKeeps(n: Net, n': Net, subject: int)
    requires Inv(n) && SameExcept(n, n', subject) && QueuesNonEmpty(n'.conn)
    requires subject in n'.shells ==> ShellOk(n', subject)
    requires 0 <= subject < 0x1_0000_0000 && subject > n'.lastId ==> UnopenedOk(n', subject)
    ensures Inv(n')
  {
    hide ShellOk, UnopenedOk, HistoryOf, PendingOf, SentBy;
    forall id | id in n'.shells ensures ShellOk(n', id) {
      if id != subject {
        SameShell(n, n', id);
      }
    }
    forall id: U32 | id > n'.lastId ensures UnopenedOk(n', id) {
      if id != subject {
        SameUnopened(n, n', id);
      }
    }
  }

  lemma SameShell(n: Net, n': Net, id: U32)
    requires SameFor(n, n', id) && id in n.shells && ShellOk(n, id)
    ensures id in n'.shells && ShellOk(n', id)
  {
    hide HistoryOf, PendingOf, SentBy, ShellRun, ShellSends;
  }

  lemma SameUnopened(n: Net, n': Net, id: U32)
    requires SameFor(n, n', id) && UnopenedOk(n, id)
    ensures UnopenedOk(n', id)
  {
    hide HistoryOf, PendingOf, SentBy;
  }

  lemma SendFrame(n: Net, m: Message)
    ensures SameExcept(n, n.(conn := Send(n.conn, m)), m.arg0)
  {
    forall id: U32 | id != m.arg0 ensures SameFor(n, n.(conn := Send(n.conn, m)), id) {
      SentByAppend(n.conn.sent, id, m);
    }
  }

  lemma ReadFrame(n: Net, id: U32)
    ensures SameExcept(n, DoRead(n, id), id)
    ensures QueuesNonEmpty(n.conn) ==> QueuesNonEmpty(DoRead(n, id).conn)
  {
  }

  lemma SameTransitive(n: Net, n': Net, n'': Net, subject: int)
    requires SameExcept(n, n', subject) && SameExcept(n', n'', subject)
    ensures SameExcept(n, n'', subject)
  {
    forall id: U32 | id != subject ensures SameFor(n, n'', id) {
      assert SameFor(n, n', id) && SameFor(n', n'', id);
    }
  }

  lemma RouteSame(n: Net, msg: Message, id: U32)
    requires id != TargetOf(msg)
    ensures SameFor(n, OnIncoming(n, msg), id)
  {
    hide SentBy;
    var t := TargetOf(msg);
    if ForReads(n.conn, msg) {
      assert OnIncoming(n, msg).conn.sent == n.conn.sent;
    } else if msg.command == A_WRTE {
      SentByAppend(n.conn.sent, id, Message(A_OKAY, t, msg.arg0, []));
    } else {
      assert OnIncoming(n, msg) == n.(conn := n.conn.(handlers := n.conn.handlers - {t}));
    }
  }

  lemma RouteFrame(n: Net, msg: Message)
    requires QueuesNonEmpty(n.conn)
    ensures SameExcept(n, OnIncoming(n, msg), TargetOf(msg))
    ensures QueuesNonEmpty(OnIncoming(n, msg).conn)
  {
    hide SameFor, SentBy;
    forall id: U32 | id != TargetOf(msg) ensures SameFor(n, OnIncoming(n, msg), id) {
      RouteSame(n, msg, id);
    }
  }

  lemma IncomingKeeps(n: Net, msg: Message)
    requires Inv(n)
    ensures Inv(OnIncoming(n, msg))
  {
    var t := TargetOf(msg);
    var n' := OnIncoming(n, msg);
    RouteFrame(n, msg);
    if t in n.shells {
      IncomingForShell(n, msg);
    }
    if t > n.lastId {
      assert UnopenedOk(n, t);
    }
    FrameKeeps(n, n', t);
  }

  lemma IncomingForShell(n: Net, msg: Message)
    requires TargetOf(msg) in n.shells && ShellOk(n, TargetOf(msg))
    ensures TargetOf(msg) in OnIncoming(n, msg).shells && ShellOk(OnIncoming(n, msg), TargetOf(msg))
  {
    hide ShellRun, ShellSends, SentBy;
    var id := TargetOf(msg);
    var n' := OnIncoming(n, msg);
    assert ForReads(n.conn, msg);
    if id in n.conn.waiting {
      assert id !in n.conn.inbox;
      assert HistoryOf(n'.handed, id) == HistoryOf(n.handed, id) + [msg];
      assert Consumed(n', id) == HistoryOf(n.handed, id) == Consumed(n, id);
    } else {
      assert Consumed(n', id) == Consumed(n, id);
      assert HistoryOf(n.handed, id) + (PendingOf(n.conn, id) + [msg])
             == (HistoryOf(n.handed, id) + PendingOf(n.conn, id)) + [msg];
    }
  }

  /** A live shell with nothing outstanding that reads again: the shell between two awaits. */
  ghost predicate BetweenReads(n: Net, id: U32)
    requires id in n.shells
  {
    var s := n.shells[id];
    var handed := HistoryOf(n.handed, id);
    && 0 < id <= n.lastId && id !in n.conn.handlers && Live(s.phase)
    && id !in n.conn.inbox && id !in n.conn.waiting
    && handed + PendingOf(n.conn, id) == HistoryOf(n.routed, id)
    && s.phase == ShellRun(handed)
    && SentBy(n.conn.sent, id) <= ShellSends(id, s.destination, handed)
    && (!n.conn.closed ==> SentBy(n.conn.sent, id) == ShellSends(id, s.destination, handed))
  }

  lemma ReadKeepsShell(n: Net, id: U32)
    requires id in n.shells && BetweenReads(n, id)
    ensures id in DoRead(n, id).shells && ShellOk(DoRead(n, id), id)
  {
    hide ShellRun, ShellSends, SentBy;
    var n' := DoRead(n, id);
    var queue := PendingOf(n.conn, id);
    var handed := HistoryOf(n.handed, id);
    if queue != [] {
      assert HistoryOf(n'.handed, id) == handed + [queue[0]];
      assert PendingOf(n'.conn, id) == queue[1..];
      assert (handed + [queue[0]]) + queue[1..] == handed + queue;
      assert Consumed(n', id) == handed;
    } else {
      assert handed + [] == handed;
      assert Consumed(n', id) == handed;
    }
  }

  lemma OpenKeeps(n: Net, destination: seq<Byte>)
    requires Inv(n)
    ensures Inv(OnOpenShell(n, destination))
  {
    hide Inv;
    if n.conn.closed {
    } else if n.lastId + 1 >= 0x1_0000_0000 || !Sendable(destination) {
      SkippedId(n);
    } else {
      OpenAccepted(n, destination);
    }
  }

  lemma OpenAccepted(n: Net, destination: seq<Byte>)
    requires Inv(n) && !n.conn.closed && n.lastId + 1 < 0x1_0000_0000 && Sendable(destination)
    ensures Inv(OnOpenShell(n, destination))
  {
    hide SameExcept, ShellRun, SentBy, ShellSends;
    var id: U32 := n.lastId + 1;
    var m := Message(A_OPEN, id, 0, destination);
    var sent := n.(conn := Send(n.conn, m));
    var started := sent.(lastId := id, shells := n.shells[id := Shell(destination, AwaitOkay)]);
    assert UnopenedOk(n, id);
    OpenFrame(n, id, destination);
    SentByAppend(n.conn.sent, id, m);
    OpenStarts(id, destination);
    assert BetweenReads(started, id);
    ReadKeepsShell(started, id);
    ReadFrame(started, id);
    SameTransitive(n, started, DoRead(started, id), id);
    FrameKeeps(n, DoRead(started, id), id);
  }

  lemma OpenStarts(id: U32, destination: seq<Byte>)
    ensures ShellRun([]) == AwaitOkay && ShellSends(id, destination, []) == [Message(A_OPEN, id, 0, destination)]
  {
  }

  lemma OpenFrame(n: Net, id: U32, destination: seq<Byte>)
    requires id > n.lastId
    ensures SameExcept(n, n.(conn := Send(n.conn, Message(A_OPEN, id, 0, destination)), lastId := id,
                             shells := n.shells[id := Shell(destination, AwaitOkay)]), id)
  {
    var m := Message(A_OPEN, id, 0, destination);
    forall i: U32 | i != id ensures SentBy(Send(n.conn, m).sent, i) == SentBy(n.conn.sent, i) {
      SentByAppend(n.conn.sent, i, m);
    }
  }

  /** An id that is used up without opening anything. */
  lemma SkippedId(n: Net)
    requires Inv(n)
    ensures Inv(n.(lastId := n.lastId + 1))
  {
    var n' := n.(lastId := n.lastId + 1);
    assert SameExcept(n, n', -1);
    FrameKeeps(n, n', -1);
  }

  lemma ResumeFrame(n: Net, id: U32)
    requires id in n.shells
    ensures SameExcept(n, n.(conn := Resumed(n.conn, id)), id)
    ensures forall p :: SameExcept(n, SetPhase(n, id, p), id)
    ensures SameExcept(n, n.(conn := Cleanup(n.conn, id)), id)
  {
  }

  lemma ResumeKeeps(n0: Net, id: U32)
    requires Inv(n0) && id in n0.shells && id in n0.conn.inbox
    ensures Inv(OnResumeShell(n0, id))
  {
    hide ShellRun, ShellSends, SentBy, ShellOk, BetweenReads, UnopenedOk, SameFor;
    var n := n0.(conn := Resumed(n0.conn, id));
    ResumeFrame(n0, id);
    ResumeIsShellStep(n0, id);
    ResumeQueues(n0, id);
    var delivery := n0.conn.inbox[id];
    var phase := n0.shells[id].phase;
    var n' := OnResumeShell(n0, id);
    if delivery.Rejected? {
      var c := if phase.Reading? then n.(conn := Cleanup(n.conn, id)) else n;
      ResumeFrame(n, id);
      ResumeFrame(c, id);
      if phase.Reading? {
        SameTransitive(n0, n, c, id);
      }
      SameTransitive(n0, c, n', id);
    } else {
      var msg := delivery.msg;
      if phase.AwaitOkay? && msg.command == A_OKAY {
        var p := SetPhase(n, id, Reading(msg.arg0, []));
        ResumeFrame(n, id);
        SameTransitive(n0, n, p, id);
        ReadFrame(p, id);
        SameTransitive(n0, p, n', id);
      } else if phase.AwaitOkay? {
        var c := n.(conn := Cleanup(n.conn, id));
        ResumeFrame(n, id);
        ResumeFrame(c, id);
        SameTransitive(n0, n, c, id);
        SameTransitive(n0, c, n', id);
      } else if phase.Reading? && msg.command == A_WRTE {
        var m := Message(A_OKAY, id, phase.remoteId, []);
        var acked := n.(conn := Send(n.conn, m));
        SendFrame(n, m);
        SameTransitive(n0, n, acked, id);
        var p := SetPhase(acked, id, Reading(phase.remoteId, phase.chunks + [msg.payload]));
        ResumeFrame(acked, id);
        SameTransitive(n0, acked, p, id);
        ReadFrame(p, id);
        SameTransitive(n0, p, n', id);
      } else if phase.Reading? && msg.command == A_CLSE {
        var m := Message(A_CLSE, id, phase.remoteId, []);
        var said := n.(conn := Send(n.conn, m));
        SendFrame(n, m);
        SameTransitive(n0, n, said, id);
        var c := said.(conn := Cleanup(said.conn, id));
        ResumeFrame(said, id);
        ResumeFrame(c, id);
        SameTransitive(n0, said, c, id);
        SameTransitive(n0, c, n', id);
      } else if phase.Reading? {
        ReadFrame(n, id);
        SameTransitive(n0, n, n', id);
      }
    }
    ShellIdBound(n0, id);
    FrameKeeps(n0, n', id);
  }

  lemma ShellIdBound(n: Net, id: U32)
    requires Inv(n) && id in n.shells
    ensures id <= n.lastId
  {
    assert ShellOk(n, id);
  }

  /** What `ShellOk` says about a shell whose read resolved with a message, spelled out. */
  lemma ResumeReady(n0: Net, id: U32)
    requires id in n0.shells && id in n0.conn.inbox && n0.conn.inbox[id].Received? && ShellOk(n0, id)
    ensures var handed := HistoryOf(n0.handed, id);
            var s := n0.shells[id];
            && handed != [] && handed[|handed| - 1] == n0.conn.inbox[id].msg && Live(s.phase)
            && 0 < id <= n0.lastId && id !in n0.conn.handlers && id !in n0.conn.waiting
            && handed + PendingOf(n0.conn, id) == HistoryOf(n0.routed, id)
            && s.phase == ShellRun(handed[..|handed| - 1])
            && ShellRun(handed) == ShellStep(s.phase, n0.conn.inbox[id].msg)
            && SentBy(n0.conn.sent, id) <= ShellSends(id, s.destination, handed[..|handed| - 1])
            && (!n0.conn.closed ==>
                  SentBy(n0.conn.sent, id) == ShellSends(id, s.destination, handed[..|handed| - 1]))
  {
    hide ShellSends, SentBy;
  }

  lemma SendsAppend(id: U32, destination: seq<Byte>, handed: seq<Message>)
    requires handed != []
    ensures var n := |handed| - 1;
            var before := ShellSends(id, destination, handed[..n]);
            ShellSends(id, destination, handed) ==
              match ShellRun(handed[..n])
              case Reading(remoteId, _) =>
                if handed[n].command == A_WRTE then before + [Message(A_OKAY, id, remoteId, [])]
                else if handed[n].command == A_CLSE then before + [Message(A_CLSE, id, remoteId, [])]
                else before
              case _ => before
  {
  }

  lemma AcceptedReads(n0: Net, id: U32)
    requires id in n0.shells && id in n0.conn.inbox && n0.conn.inbox[id].Received? && ShellOk(n0, id)
    requires n0.shells[id].phase.AwaitOkay? && n0.conn.inbox[id].msg.command == A_OKAY
    ensures var n := n0.(conn := Resumed(n0.conn, id));
            BetweenReads(SetPhase(n, id, Reading(n0.conn.inbox[id].msg.arg0, [])), id)
  {
    hide ShellSends, SentBy, ShellRun;
    ResumeReady(n0, id);
    SendsAppend(id, n0.shells[id].destination, HistoryOf(n0.handed, id));
  }

  lemma WriteReads(n0: Net, id: U32)
    requires id in n0.shells && id in n0.conn.inbox && n0.conn.inbox[id].Received? && ShellOk(n0, id)
    requires n0.shells[id].phase.Reading? && n0.conn.inbox[id].msg.command == A_WRTE
    ensures var n := n0.(conn := Resumed(n0.conn, id));
            var p := n0.shells[id].phase;
            var acked := n.(conn := Send(n.conn, Message(A_OKAY, id, p.remoteId, [])));
            BetweenReads(SetPhase(acked, id, Reading(p.remoteId, p.chunks + [n0.conn.inbox[id].msg.payload])), id)
  {
    hide ShellSends, SentBy, ShellRun;
    ResumeReady(n0, id);
    SendsAppend(id, n0.shells[id].destination, HistoryOf(n0.handed, id));
    SentByAppend(n0.conn.sent, id, Message(A_OKAY, id, n0.shells[id].phase.remoteId, []));
  }

  lemma OtherMessageReads(n0: Net, id: U32)
    requires id in n0.shells && id in n0.conn.inbox && n0.conn.inbox[id].Received? && ShellOk(n0, id)
    requires n0.shells[id].phase.Reading?
    requires n0.conn.inbox[id].msg.command != A_WRTE && n0.conn.inbox[id].msg.command != A_CLSE
    ensures BetweenReads(n0.(conn := Resumed(n0.conn, id)), id)
  {
    hide ShellSends, SentBy, ShellRun;
    ResumeReady(n0, id);
    SendsAppend(id, n0.shells[id].destination, HistoryOf(n0.handed, id));
  }

  lemma FinishedShell(n0: Net, id: U32)
    requires id in n0.shells && id in n0.conn.inbox && n0.conn.inbox[id].Received? && ShellOk(n0, id)
    requires (n0.shells[id].phase.AwaitOkay? && n0.conn.inbox[id].msg.command != A_OKAY)
             || (n0.shells[id].phase.Reading? && n0.conn.inbox[id].msg.command == A_CLSE)
    ensures id in OnResumeShell(n0, id).shells && ShellOk(OnResumeShell(n0, id), id)
  {
    hide ShellSends, SentBy, ShellRun;
    ResumeReady(n0, id);
    var handed := HistoryOf(n0.handed, id);
    SendsAppend(id, n0.shells[id].destination, handed);
    if n0.shells[id].phase.Reading? {
      SentByAppend(n0.conn.sent, id, Message(A_CLSE, id, n0.shells[id].phase.remoteId, []));
    }
    assert handed <= HistoryOf(n0.routed, id);
    assert Consumed(OnResumeShell(n0, id), id) == handed;
  }

  lemma RejectedShell(n0: Net, id: U32)
    requires id in n0.shells && id in n0.conn.inbox && n0.conn.inbox[id].Rejected? && ShellOk(n0, id)
    ensures id in OnResumeShell(n0, id).shells && ShellOk(OnResumeShell(n0, id), id)
  {
    hide ShellSends, SentBy, ShellRun;
    assert Consumed(n0, id) == HistoryOf(n0.handed, id) == Consumed(OnResumeShell(n0, id), id);
  }

  lemma ReadQueues(n: Net, id: U32)
    requires QueuesNonEmpty(n.conn)
    ensures QueuesNonEmpty(DoRead(n, id).conn) && DoRead(n, id).lastId == n.lastId
  {
  }

  lemma ResumeQueues(n0: Net, id: U32)
    requires id in n0.shells && id in n0.conn.inbox && QueuesNonEmpty(n0.conn)
    ensures QueuesNonEmpty(OnResumeShell(n0, id).conn) && OnResumeShell(n0, id).lastId == n0.lastId
  {
    hide SentBy, DoRead, HistoryOf, PendingOf, QueuesNonEmpty;
    var n := n0.(conn := Resumed(n0.conn, id));
    var phase := n0.shells[id].phase;
    SameQueues(n0.conn, n.conn);
    CleanedQueues(n.conn, id);
    if n0.conn.inbox[id].Received? {
      var msg := n0.conn.inbox[id].msg;
      if phase.AwaitOkay? {
        ReadQueues(SetPhase(n, id, Reading(msg.arg0, [])), id);
      } else if phase.Reading? {
        var acked := n.(conn := Send(n.conn, Message(A_OKAY, id, phase.remoteId, [])));
        SameQueues(n.conn, acked.conn);
        ReadQueues(SetPhase(acked, id, Reading(phase.remoteId, phase.chunks + [msg.payload])), id);
        ReadQueues(n, id);
        var said := Send(n.conn, Message(A_CLSE, id, phase.remoteId, []));
        SameQueues(n.conn, said);
        CleanedQueues(said, id);
      }
    }
  }

  lemma SameQueues(c: Conn, c': Conn)
    requires QueuesNonEmpty(c) && c'.pending == c.pending
    ensures QueuesNonEmpty(c')
  {
  }

  lemma CleanedQueues(c: Conn, id: U32)
    requires QueuesNonEmpty(c)
    ensures QueuesNonEmpty(Cleanup(c, id))
  {
  }

  /** Running a shell's continuation advances it by exactly one of its own messages. */
  lemma ResumeIsShellStep(n0: Net, id: U32)
    requires id in n0.shells && id in n0.conn.inbox && ShellOk(n0, id)
    ensures id in OnResumeShell(n0, id).shells && ShellOk(OnResumeShell(n0, id), id)
  {
    var n := n0.(conn := Resumed(n0.conn, id));
    if n0.conn.inbox[id].Rejected? {
      RejectedShell(n0, id);
    } else {
      ResumeReady(n0, id);
      hide ShellOk, BetweenReads, ShellRun, ShellSends, SentBy, DoRead;
      var msg := n0.conn.inbox[id].msg;
      var phase := n0.shells[id].phase;
      if phase.AwaitOkay? && msg.command == A_OKAY {
        AcceptedReads(n0, id);
        ReadKeepsShell(SetPhase(n, id, Reading(msg.arg0, [])), id);
      } else if phase.Reading? && msg.command == A_WRTE {
        var acked := n.(conn := Send(n.conn, Message(A_OKAY, id, phase.remoteId, [])));
        WriteReads(n0, id);
        ReadKeepsShell(SetPhase(acked, id, Reading(phase.remoteId, phase.chunks + [msg.payload])), id);
      } else if phase.Reading? && msg.command != A_CLSE {
        OtherMessageReads(n0, id);
        ReadKeepsShell(n, id);
      } else {
        FinishedShell(n0, id);
      }
    }
  }

  lemma TimeoutKeeps(n: Net, id: U32)
    requires Inv(n) && id in n.conn.waiting
    ensures Inv(n.(conn := Reject(n.conn, {id})))
  {
    hide ShellRun, ShellSends, SentBy;
    var n' := n.(conn := Reject(n.conn, {id}));
    assert SameExcept(n, n', id);
    if id in n.shells {
      assert ShellOk(n, id);
      assert Consumed(n', id) == Consumed(n, id);
    }
    if id > n.lastId {
      NotAShell(n, id);
    }
    FrameKeeps(n, n', id);
  }

  lemma IoCloseKeeps(n: Net)
    requires Inv(n)
    ensures Inv(n.(conn := IoClosed(n.conn)))
  {
    hide ShellRun, ShellSends, SentBy;
    var n' := n.(conn := IoClosed(n.conn));
    forall id | id in n'.shells ensures ShellOk(n', id) {
      assert ShellOk(n, id);
      assert Consumed(n', id) == Consumed(n, id);
    }
    forall id: U32 | id > n'.lastId ensures UnopenedOk(n', id) {
      assert UnopenedOk(n, id);
    }
  }

  lemma CallCloseKeeps(n: Net)
    requires Inv(n)
    ensures Inv(n.(conn := CloseCalled(n.conn)))
  {
    hide ShellRun, ShellSends, SentBy;
    var n' := n.(conn := CloseCalled(n.conn));
    forall id | id in n'.shells ensures ShellOk(n', id) {
      assert ShellOk(n, id);
      assert Consumed(n', id) == Consumed(n, id);
    }
    forall id: U32 | id > n'.lastId ensures UnopenedOk(n', id) {
      assert UnopenedOk(n, id);
    }
  }

  /** Steps of streams that are not shells leave every shell alone. */
  lemma OthersKeep(n: Net, e: Event)
    requires Inv(n)
    requires e.OpenOther? || e.OtherRead? || e.OtherResumes? || e.RegisterHandler? || e.CloseOther? || e.OtherWrites?
    ensures Inv(Step(n, e))
  {
    hide ShellRun, ShellSends, ShellOk, UnopenedOk, SentBy;
    match e
    case OpenOther(destination) =>
      if !n.conn.closed {
        if n.lastId + 1 >= 0x1_0000_0000 || !Sendable(destination) {
          SkippedId(n);
        } else {
          var id: U32 := n.lastId + 1;
          NotAShell(n, id);
          var m := Message(A_OPEN, id, 0, destination);
          SendFrame(n, m);
          var sent := n.(conn := Send(n.conn, m));
          var started := sent.(lastId := id);
          assert SameExcept(n, started, id) by {
            forall i: U32 | i != id ensures SameFor(n, started, i) {
              assert SameFor(n, sent, i);
            }
          }
          ReadFrame(started, id);
          SameTransitive(n, started, DoRead(started, id), id);
          FrameKeeps(n, DoRead(started, id), id);
        }
      }
    case OtherRead(id) => ReadFrame(n, id); if IsOther(n, id) { FrameKeeps(n, DoRead(n, id), id); }
    case OtherResumes(id) => if IsOther(n, id) { FrameKeeps(n, Step(n, e), id); }
    case RegisterHandler(id) => if IsOther(n, id) { FrameKeeps(n, Step(n, e), id); }
    case CloseOther(id, remoteId) =>
      if IsOther(n, id) {
        var c := n.(conn := n.conn.(handlers := n.conn.handlers - {id}, pending := n.conn.pending - {id}));
        assert SameExcept(n, c, id);
        SendFrame(c, Message(A_CLSE, id, remoteId, []));
        SameTransitive(n, c, Step(n, e), id);
        FrameKeeps(n, Step(n, e), id);
      }
    case OtherWrites(id, remoteId, data) =>
      SendFrame(n, Message(A_WRTE, id, remoteId, data));
      if IsOther(n, id) && Sendable(data) {
        FrameKeeps(n, Step(n, e), id);
      }
  }

  lemma NotAShell(n: Net, id: U32)
    requires Inv(n) && id > n.lastId
    ensures id !in n.shells && id !in n.conn.waiting
  {
    assert UnopenedOk(n, id);
  }

  lemma StepKeepsInv(n: Net, e: Event)
    requires Inv(n)
    ensures Inv(Step(n, e))
  {
    hide Inv;
    match e
    case Incoming(msg) => IncomingKeeps(n, msg);
    case OpenShell(destination) => OpenKeeps(n, destination);
    case ResumeShell(id) => if id in n.shells && id in n.conn.inbox { ResumeKeeps(n, id); }
    case Timeout(id) => if id in n.conn.waiting { TimeoutKeeps(n, id); }
    case IoClose => IoCloseKeeps(n);
    case CallClose => CallCloseKeeps(n);
    case _ => OthersKeep(n, e);
  }

  lemma {:induction false} RunKeepsInv(events: seq<Event>)
    ensures Inv(Run(events))
  {
    if events != [] {
      RunKeepsInv(events[..|events| - 1]);
      StepKeepsInv(Run(events[..|events| - 1]), events[|events| - 1]);
    }
  }

  // -- Main results --------------------------------------------------------------------

  /**
   * Nothing is lost, duplicated or reordered: while a shell is running, what its
   * reads were given followed by its queue is what was routed to it, in any
   * interleaving; and it never waits while a message of its own is queued.
   */
  lemma NothingLost(events: seq<Event>, id: U32)
    requires id in Run(events).shells && Live(Run(events).shells[id].phase)
    ensures var n := Run(events);
            && HistoryOf(n.handed, id) + PendingOf(n.conn, id) == HistoryOf(n.routed, id)
            && (id in n.conn.waiting ==> PendingOf(n.conn, id) == [])
            && (id in n.conn.waiting <==> id !in n.conn.inbox)
  {
    RunKeepsInv(events);
    assert ShellOk(Run(events), id);
  }

  /** A shell that returns, returns the data of its own stream: the writes between its OKAY and its close. */
  lemma ShellOutput(events: seq<Event>, id: U32, output: seq<seq<Byte>>)
    requires id in Run(events).shells && Run(events).shells[id].phase == Done(output)
    ensures exists k :: 0 <= k <= |HistoryOf(Run(events).routed, id)|
                        && Returns(HistoryOf(Run(events).routed, id)[..k], output)
  {
    var n := Run(events);
    RunKeepsInv(events);
    assert ShellOk(n, id);
    var consumed := Consumed(n, id);
    assert consumed == HistoryOf(n.routed, id)[..|consumed|];
    DoneMeans(consumed, output);
  }

  /** Once a shell has nothing left to resume, its progress is a function of its own messages alone. */
  lemma ShellProgress(events: seq<Event>, id: U32)
    requires id in Run(events).shells && id in Run(events).conn.waiting
    ensures Run(events).shells[id].phase == ShellRun(HistoryOf(Run(events).routed, id))
  {
    var n := Run(events);
    RunKeepsInv(events);
    assert ShellOk(n, id);
    assert HistoryOf(n.handed, id) + [] == HistoryOf(n.handed, id);
  }

  /**
   * On an open connection a shell that has returned has sent its OPEN, one OKAY for each
   * chunk it returned, and a CLSE, all to the stream named by the first message it got.
   */
  lemma ShellSaid(events: seq<Event>, id: U32, output: seq<seq<Byte>>)
    requires id in Run(events).shells && Run(events).shells[id].phase == Done(output) && !Run(events).conn.closed
    ensures var n := Run(events);
            && HistoryOf(n.routed, id) != []
            && var remoteId := HistoryOf(n.routed, id)[0].arg0;
               SentBy(n.conn.sent, id)
               == [Message(A_OPEN, id, 0, n.shells[id].destination)] + Repeat(Message(A_OKAY, id, remoteId, []), |output|)
                  + [Message(A_CLSE, id, remoteId, [])]
  {
    RunKeepsInv(events);
    FinishedSaid(Run(events), id, output);
  }

  lemma FinishedSaid(n: Net, id: U32, output: seq<seq<Byte>>)
    requires Inv(n) && id in n.shells && n.shells[id].phase == Done(output) && !n.conn.closed
    ensures var ms := HistoryOf(n.routed, id);
            && ms != []
            && SentBy(n.conn.sent, id)
               == [Message(A_OPEN, id, 0, n.shells[id].destination)] + Repeat(Message(A_OKAY, id, ms[0].arg0, []), |output|)
                  + [Message(A_CLSE, id, ms[0].arg0, [])]
  {
    assert ShellOk(n, id);
    hide Inv, SentBy, ShellSends, Repeat, ShellRun, HistoryOf, PendingOf;
    SendsMean(id, n.shells[id].destination, Consumed(n, id));
    assert Consumed(n, id) <= HistoryOf(n.handed, id) <= HistoryOf(n.routed, id);
  }

  /** Once the connection is closed it stays closed and nothing more is sent. */
  lemma ClosedSaysNothing(n: Net, e: Event)
    requires n.conn.closed
    ensures Step(n, e).conn.closed && Step(n, e).conn.sent == n.conn.sent
  {
    hide OnResumeShell, OnIncoming, DoRead, HistoryOf;
    match e
    case Incoming(msg) => ClosedRoutes(n, msg);
    case ResumeShell(id) => ClosedResumes(n, id);
    case OtherRead(id) => ReadSaysNothing(n, id);
    case _ =>
  }

  lemma ReadSaysNothing(n: Net, id: U32)
    ensures DoRead(n, id).conn.closed == n.conn.closed && DoRead(n, id).conn.sent == n.conn.sent
  {
    hide HistoryOf;
  }

  lemma ClosedRoutes(n: Net, msg: Message)
    requires n.conn.closed
    ensures OnIncoming(n, msg).conn.closed && OnIncoming(n, msg).conn.sent == n.conn.sent
  {
    hide HistoryOf, PendingOf, StreamedOf;
  }

  lemma ClosedResumes(n0: Net, id: U32)
    requires n0.conn.closed
    ensures OnResumeShell(n0, id).conn.closed && OnResumeShell(n0, id).conn.sent == n0.conn.sent
  {
    hide DoRead, HistoryOf, PendingOf;
    forall n: Net ensures DoRead(n, id).conn.closed == n.conn.closed && DoRead(n, id).conn.sent == n.conn.sent {
      ReadSaysNothing(n, id);
    }
  }

  /** A waiting shell whose read times out, or whose connection is lost, ends without a result; no other shell is touched. */
  lemma RejectedReadEnds(events: seq<Event>, e: Event, id: U32)
    requires id in Run(events).shells && id in Run(events).conn.waiting
    requires e == Timeout(id) || (e == IoClose && !Run(events).conn.closed)
    ensures var n := Run(events + [e] + [ResumeShell(id)]);
            && id in n.shells && n.shells[id].phase == TimedOut
            && (forall other | other in Run(events).shells && other != id ::
                  other in n.shells && n.shells[other] == Run(events).shells[other])
            && (e.Timeout? ==> n.conn.waiting == Run(events).conn.waiting - {id})
            && (e.IoClose? ==> n.conn.waiting == {} && n.conn.handlers == {} && n.conn.closed)
  {
    assert (events + [e])[..|events|] == events;
    assert (events + [e] + [ResumeShell(id)])[..|events| + 1] == events + [e];
    hide Step;
    assert Run(events + [e] + [ResumeShell(id)]) == Step(Step(Run(events), e), ResumeShell(id));
    hide Run;
    ReadRejected(Run(events), e, id);
    RejectedResumes(Step(Run(events), e), id);
  }

  /** The read a shell waits on is rejected by nothing but its own timer and the loss of the connection. */
  lemma RejectedExactly(events: seq<Event>, e: Event, id: U32)
    requires id in Run(events).shells && id in Run(events).conn.waiting
    ensures var c := Step(Run(events), e).conn;
            (id in c.inbox && c.inbox[id].Rejected?) <==> e == Timeout(id) || (e == IoClose && !Run(events).conn.closed)
  {
    RunKeepsInv(events);
    assert ShellOk(Run(events), id);
    hide Run, Inv, ShellOk, Step;
    StepRejectsExactly(Run(events), e, id);
  }

  lemma StepRejectsExactly(n: Net, e: Event, id: U32)
    requires id in n.conn.waiting && !RejectedIn(n.conn, id)
    ensures RejectedIn(Step(n, e).conn, id) <==> e == Timeout(id) || (e == IoClose && !n.conn.closed)
  {
    hide OnResumeShell, OnIncoming, OnOpenShell, DoRead;
    match e
    case Incoming(msg) => IncomingRejectsNothing(n, msg, id);
    case OpenShell(destination) => OpenRejectsNothing(n, destination, id);
    case ResumeShell(other) => ResumeRejectsNothing(n, other, id);
    case OpenOther(destination) => OtherRejectsNothing(n, e, id);
    case OtherRead(other) => ReadRejectsNothing(n, other, id);
    case OtherResumes(_) => OtherRejectsNothing(n, e, id);
    case RegisterHandler(_) => OtherRejectsNothing(n, e, id);
    case CloseOther(_, _) => OtherRejectsNothing(n, e, id);
    case OtherWrites(_, _, _) => OtherRejectsNothing(n, e, id);
    case _ =>
  }

  lemma OtherRejectsNothing(n: Net, e: Event, id: U32)
    requires e.OpenOther? || e.OtherResumes? || e.RegisterHandler? || e.CloseOther? || e.OtherWrites?
    requires !RejectedIn(n.conn, id)
    ensures !RejectedIn(Step(n, e).conn, id)
  {
    hide DoRead;
    if e.OpenOther? && !n.conn.closed && n.lastId + 1 < 0x1_0000_0000 {
      var other: U32 := n.lastId + 1;
      ReadRejectsNothing(n.(lastId := other, conn := Send(n.conn, Message(A_OPEN, other, 0, e.destination))), other, id);
    }
  }

  predicate RejectedIn(c: Conn, id: U32) {
    id in c.inbox && c.inbox[id].Rejected?
  }

  lemma ReadRejectsNothing(n: Net, other: U32, id: U32)
    ensures !RejectedIn(n.conn, id) ==> !RejectedIn(DoRead(n, other).conn, id)
  {
    hide HistoryOf;
  }

  lemma IncomingRejectsNothing(n: Net, msg: Message, id: U32)
    ensures !RejectedIn(n.conn, id) ==> !RejectedIn(OnIncoming(n, msg).conn, id)
  {
    hide HistoryOf, PendingOf, StreamedOf;
  }

  lemma OpenRejectsNothing(n: Net, destination: seq<Byte>, id: U32)
    ensures !RejectedIn(n.conn, id) ==> !RejectedIn(OnOpenShell(n, destination).conn, id)
  {
    hide DoRead;
    if !n.conn.closed && n.lastId + 1 < 0x1_0000_0000 {
      var other: U32 := n.lastId + 1;
      ReadRejectsNothing(n.(lastId := other, shells := n.shells[other := Shell(destination, AwaitOkay)],
                            conn := Send(n.conn, Message(A_OPEN, other, 0, destination))), other, id);
    }
  }

  lemma ResumeRejectsNothing(n: Net, other: U32, id: U32)
    ensures !RejectedIn(n.conn, id) ==> !RejectedIn(OnResumeShell(n, other).conn, id)
  {
    hide DoRead;
    forall n': Net ensures !RejectedIn(n'.conn, id) ==> !RejectedIn(DoRead(n', other).conn, id) {
      ReadRejectsNothing(n', other, id);
    }
  }

  /** A shell that ends leaves nothing of its stream behind, unless its opening read was rejected: then its queue stays. */
  lemma EndingCleansUp(n: Net, id: U32)
    requires id in n.shells && Live(n.shells[id].phase) && id !in n.conn.waiting && id !in n.conn.handlers
    ensures var n' := Step(n, ResumeShell(id));
            !Live(n'.shells[id].phase) ==>
              && id !in n'.conn.waiting && id !in n'.conn.inbox && id !in n'.conn.handlers
              && (id in n'.conn.pending <==>
                    id in n.conn.pending && n.shells[id].phase.AwaitOkay? && n.conn.inbox[id].Rejected?)
  {
    hide DoRead;
    forall n': Net ensures DoRead(n', id).shells == n'.shells {
      ReadKeepsShells(n', id);
    }
  }

  lemma ReadKeepsShells(n: Net, id: U32)
    ensures DoRead(n, id).shells == n.shells
  {
  }

  lemma ReadRejected(n: Net, e: Event, id: U32)
    requires id in n.conn.waiting && (e == Timeout(id) || (e == IoClose && !n.conn.closed))
    ensures var n' := Step(n, e);
            && n'.shells == n.shells && id in n'.conn.inbox && n'.conn.inbox[id].Rejected?
            && (e.Timeout? ==> n'.conn.waiting == n.conn.waiting - {id})
            && (e.IoClose? ==> n'.conn.waiting == {} && n'.conn.handlers == {} && n'.conn.closed)
  {
  }

  lemma RejectedResumes(n: Net, id: U32)
    requires id in n.shells && id in n.conn.inbox && n.conn.inbox[id].Rejected?
    ensures var n' := Step(n, ResumeShell(id));
            && n'.shells == n.shells[id := n.shells[id].(phase := TimedOut)]
            && n'.conn.waiting == n.conn.waiting - (if n.shells[id].phase.Reading? then {id} else {})
            && n'.conn.handlers <= n.conn.handlers && n'.conn.closed == n.conn.closed
  {
  }
}
