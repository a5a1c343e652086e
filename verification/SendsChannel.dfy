/** The single-writer discipline: many producers queue whole messages, one coroutine writes them. */
module SendsChannel {
  import opened Wire
  import opened Sockets
  import opened Messages

  /** One direction of a connection. `started` are the messages the writing coroutine has taken from the queue, `pending`
      the bytes it still has to write, `wire` those it has written. */
  datatype Writer = Writer(
    queue: seq<Message>,
    started: seq<Message>,
    pending: bytes,
    wire: bytes)

  datatype Event =
    | Enqueue(m: Message)   // any producer, as soon as there is room or the writer waits for it
    | Dequeue               // the writer is done with one action and takes the next
    | Put(n: nat)           // some more bytes of the current action reach the socket

  const CONTROL_CONNECTION: byte := 0

  /** What the writer does before it looks at the queue: raw connection header `header`, then messages `opening`. */
  function Start(header: bytes, opening: seq<Message>): Writer {
    Writer([], [], header + EncodeMessages(opening), [])
  }

  predicate Enabled(capacity: nat, w: Writer, e: Event) {
    match e
    case Enqueue(_) => |w.queue| < capacity || (w.queue == [] && w.pending == [])
    case Dequeue => w.pending == [] && w.queue != []
    case Put(n) => n <= |w.pending|
  }

  function Step(capacity: nat, w: Writer, e: Event): Writer
    requires Enabled(capacity, w, e)
  {
    match e
    case Enqueue(m) => w.(queue := w.queue + [m])
    case Dequeue =>
      w.(queue := w.queue[1..], started := w.started + [w.queue[0]], pending := EncodeMessage(w.queue[0]))
    case Put(n) => w.(pending := w.pending[n..], wire := w.wire + w.pending[..n])
  }

  /** A run of the connection: any interleaving of producers and writer, stopped anywhere. */
  ghost predicate Run(capacity: nat, w: Writer, events: seq<Event>, w': Writer)
    decreases |events|
  {
    if events == [] then w' == w
    else Enabled(capacity, w, events[0]) && Run(capacity, Step(capacity, w, events[0]), events[1..], w')
  }

  /** What was queued in the course of a run, in order. */
  function MessagesOf(events: seq<Event>): seq<Message> {
    if events == [] then []
    else (match events[0]
          case Enqueue(m) => [m]
          case _ => [])
         + MessagesOf(events[1..])
  }

  /** What has been written and what the current action will still write are whole encodings, in the order in which
      they were `queued`. */
  ghost predicate Inv(header: bytes, opening: seq<Message>, queued: seq<Message>, w: Writer) {
    && queued == w.started + w.queue
    && w.wire + w.pending == header + EncodeMessages(opening + w.started)
    && |w.pending| <= |LastAction(header, opening, w.started)|
  }

  function LastAction(header: bytes, opening: seq<Message>, started: seq<Message>): bytes {
    if started == [] then header + EncodeMessages(opening) else EncodeMessage(started[|started| - 1])
  }

  lemma InvHoldsAtStart(header: bytes, opening: seq<Message>)
    ensures Inv(header, opening, [], Start(header, opening))
  {
    assert opening + [] == opening;
  }

  lemma EncodeAppended(ms: seq<Message>, m: Message)
    ensures EncodeMessages(ms + [m]) == EncodeMessages(ms) + EncodeMessage(m)
  {
    EncodeMessagesConcat(ms, [m]);
    assert EncodeMessages([m]) == EncodeMessage(m) + [] == EncodeMessage(m);
  }

  lemma StepKeepsInv(capacity: nat, header: bytes, opening: seq<Message>, queued: seq<Message>, w: Writer, e: Event)
    requires Inv(header, opening, queued, w) && Enabled(capacity, w, e)
    ensures Inv(header, opening, queued + MessagesOf([e]), Step(capacity, w, e))
  {
    assert MessagesOf([e]) == match e case Enqueue(m) => [m] case _ => [];
    match e
    case Enqueue(m) => assert w.started + (w.queue + [m]) == queued + [m];
    case Dequeue =>
      assert queued + [] == queued;
      DequeueKeepsInv(capacity, header, opening, queued, w);
    case Put(n) =>
      assert queued + [] == queued;
      PutKeepsInv(capacity, header, opening, queued, w, n);
  }

  lemma DequeueKeepsInv(capacity: nat, header: bytes, opening: seq<Message>, queued: seq<Message>, w: Writer)
    requires Inv(header, opening, queued, w) && Enabled(capacity, w, Dequeue)
    ensures Inv(header, opening, queued, Step(capacity, w, Dequeue))
  {
    TakeFirst(w.started, w.queue);
    OneMoreEncoded(header, opening, w.started, w.queue[0]);
    assert w.wire + [] == w.wire;
  }

  lemma TakeFirst(started: seq<Message>, queue: seq<Message>)
    requires queue != []
    ensures (started + [queue[0]]) + queue[1..] == started + queue
  {
  }

  lemma OneMoreEncoded(header: bytes, opening: seq<Message>, started: seq<Message>, m: Message)
    ensures header + EncodeMessages(opening + (started + [m]))
         == header + EncodeMessages(opening + started) + EncodeMessage(m)
  {
    Regroup(opening, started, [m]);
    EncodeAppended(opening + started, m);
    Regroup(header, EncodeMessages(opening + started), EncodeMessage(m));
  }

  lemma PutKeepsInv(capacity: nat, header: bytes, opening: seq<Message>, queued: seq<Message>, w: Writer, n: nat)
    requires Inv(header, opening, queued, w) && Enabled(capacity, w, Put(n))
    ensures Inv(header, opening, queued, Step(capacity, w, Put(n)))
  {
    assert (w.wire + w.pending[..n]) + w.pending[n..] == w.wire + w.pending;
  }

  lemma {:induction false} RunKeepsInv(capacity: nat, header: bytes, opening: seq<Message>, queued: seq<Message>,
                                       w: Writer, events: seq<Event>, w': Writer)
    requires Inv(header, opening, queued, w) && Run(capacity, w, events, w')
    ensures Inv(header, opening, queued + MessagesOf(events), w')
    decreases |events|
  {
    if events == [] {
      assert queued + [] == queued;
    } else {
      var first := MessagesOf([events[0]]);
      StepKeepsInv(capacity, header, opening, queued, w, events[0]);
      RunKeepsInv(capacity, header, opening, queued + first, Step(capacity, w, events[0]), events[1..], w');
      assert MessagesOf(events) == first + MessagesOf(events[1..]);
      Regroup(queued, first, MessagesOf(events[1..]));
    }
  }

  lemma InvAfter(capacity: nat, header: bytes, opening: seq<Message>, events: seq<Event>, w: Writer)
    requires Run(capacity, Start(header, opening), events, w)
    ensures Inv(header, opening, MessagesOf(events), w)
  {
    InvHoldsAtStart(header, opening);
    RunKeepsInv(capacity, header, opening, [], Start(header, opening), events, w);
    assert [] + MessagesOf(events) == MessagesOf(events);
  }

  lemma CutLast(wire: bytes, pending: bytes, before: bytes, last: bytes)
    requires wire + pending == before + last && |pending| <= |last|
    ensures wire == before + last[..|last| - |pending|]
  {
    assert wire == (wire + pending)[..|wire|];
    assert before + last[..|last| - |pending|] == (before + last)[..|wire|];
  }

  lemma CutHeader(wire: bytes, pending: bytes, header: bytes, all: bytes)
    requires wire + pending == header + all && |header| <= |wire|
    ensures header <= wire && wire[|header|..] + pending == all
  {
    assert header == (wire + pending)[..|header|] == wire[..|header|];
    assert all == (wire + pending)[|header|..] == wire[|header|..] + pending;
  }

  /** The actions that are written completely, and how much of the action in progress is. */
  function Finished(w: Writer): seq<Message>
    requires w.started != []
  {
    w.started[..|w.started| - 1]
  }

  function Current(w: Writer): bytes
    requires w.started != []
  {
    EncodeMessage(w.started[|w.started| - 1])
  }

  /** Frames are never interleaved: whenever the connection is cut, what was written is the header, the opening
      messages, whole encodings of the first queued messages in the order they were queued, and a piece of one more. */
  lemma FrameAtomicity(capacity: nat, header: bytes, opening: seq<Message>, events: seq<Event>, w: Writer)
    requires Run(capacity, Start(header, opening), events, w)
    ensures w.started <= MessagesOf(events)
    ensures w.started == [] ==> w.wire <= header + EncodeMessages(opening)
    ensures w.started != [] ==> |w.pending| <= |Current(w)|
    ensures w.started != [] ==>
              w.wire == header + EncodeMessages(opening + Finished(w)) + Current(w)[..|Current(w)| - |w.pending|]
  {
    InvAfter(capacity, header, opening, events, w);
    assert w.started <= w.started + w.queue;
    if w.started != [] {
      CurrentIsCut(header, opening, w);
    } else {
      assert opening + w.started == opening;
      assert w.wire == (w.wire + w.pending)[..|w.wire|];
    }
  }

  lemma CurrentIsCut(header: bytes, opening: seq<Message>, w: Writer)
    requires w.wire + w.pending == header + EncodeMessages(opening + w.started) && w.started != []
    requires |w.pending| <= |Current(w)|
    ensures w.wire == header + EncodeMessages(opening + Finished(w)) + Current(w)[..|Current(w)| - |w.pending|]
  {
    WholeActions(header, opening, w);
    CutLast(w.wire, w.pending, header + EncodeMessages(opening + Finished(w)), Current(w));
  }

  lemma WholeActions(header: bytes, opening: seq<Message>, w: Writer)
    requires w.started != []
    ensures header + EncodeMessages(opening + w.started)
         == header + EncodeMessages(opening + Finished(w)) + Current(w)
  {
    var last := w.started[|w.started| - 1];
    assert opening + w.started == (opening + Finished(w)) + [last];
    EncodeAppended(opening + Finished(w), last);
  }

  /** What the peer's reader makes of the stream, at any moment: the opening messages and then the queued ones, in the
      order they were queued, up to some point. The point is the last message the writer has finished. */
  lemma PeerReadsPrefix(capacity: nat, d: Direction, header: bytes, opening: seq<Message>,
                        events: seq<Event>, w: Writer)
    requires Run(capacity, Start(header, opening), events, w)
    requires forall m | m in opening + MessagesOf(events) :: WellFormed(d, m)
    requires |header| <= |w.wire|
    ensures header <= w.wire
    ensures DecodeMessages(d, w.wire[|header|..]) <= opening + MessagesOf(events)
    ensures w.pending == [] ==> DecodeMessages(d, w.wire[|header|..]) == opening + w.started
    ensures w.pending != [] && w.started != [] ==>
              DecodeMessages(d, w.wire[|header|..]) == opening + Finished(w)
  {
    InvAfter(capacity, header, opening, events, w);
    CutHeader(w.wire, w.pending, header, EncodeMessages(opening + w.started));
    StartedFirst(d, opening, w.started, w.queue, MessagesOf(events));
    BodyIsRead(d, opening, w.started, w.wire[|header|..], w.pending);
    var got := DecodeMessages(d, w.wire[|header|..]);
    assert got <= opening + w.started;
  }

  /** Cut inside the last of its messages, a stream is read as the others. */
  lemma LastCutIsDropped(d: Direction, whole: seq<Message>, last: Message, body: bytes, pending: bytes)
    requires forall m | m in whole :: WellFormed(d, m)
    requires WellFormed(d, last)
    requires body + pending == EncodeMessages(whole + [last]) && 0 < |pending| <= |EncodeMessage(last)|
    ensures DecodeMessages(d, body) == whole
  {
    EncodeAppended(whole, last);
    var n: nat := |EncodeMessage(last)| - |pending|;
    var cut := EncodeMessages(whole) + EncodeMessage(last)[..n];
    CutLast(body, pending, EncodeMessages(whole), EncodeMessage(last));
    MessagesThenCut(d, whole, last, n);
    assert body == cut;
  }

  lemma StartedFirst(d: Direction, opening: seq<Message>, started: seq<Message>, queue: seq<Message>,
                     enqueued: seq<Message>)
    requires enqueued == started + queue
    requires forall m | m in opening + enqueued :: WellFormed(d, m)
    ensures opening + started <= opening + enqueued
    ensures forall m | m in opening + started :: WellFormed(d, m)
  {
    assert opening + enqueued == (opening + started) + queue;
    assert forall m | m in opening + started :: m in (opening + started) + queue;
  }

  lemma BodyIsRead(d: Direction, opening: seq<Message>, started: seq<Message>, body: bytes, pending: bytes)
    requires forall m | m in opening + started :: WellFormed(d, m)
    requires body + pending == EncodeMessages(opening + started)
    requires started != [] ==> |pending| <= |EncodeMessage(started[|started| - 1])|
    ensures pending == [] ==> DecodeMessages(d, body) == opening + started
    ensures pending != [] && started == [] ==> DecodeMessages(d, body) <= opening
    ensures pending != [] && started != [] ==> DecodeMessages(d, body) == opening + started[..|started| - 1]
  {
    if pending == [] {
      assert body + [] == body;
      MessagesRoundTrip(d, opening + started);
    } else if started == [] {
      assert opening + started == opening;
      assert body == EncodeMessages(opening)[..|body|];
      CutMessagesRead(d, opening, |body|);
    } else {
      var k := |started| - 1;
      assert opening + started == (opening + started[..k]) + [started[k]];
      LastCutIsDropped(d, opening + started[..k], started[k], body, pending);
    }
  }

  /** A stream of messages cut anywhere is read as the first few of them. */
  lemma {:induction false} CutMessagesRead(d: Direction, ms: seq<Message>, n: nat)
    requires forall m | m in ms :: WellFormed(d, m)
    requires n <= |EncodeMessages(ms)|
    ensures DecodeMessages(d, EncodeMessages(ms)[..n]) <= ms
  {
    if ms != [] {
      var first := EncodeMessage(ms[0]);
      var s := EncodeMessages(ms);
      if n < |first| {
        assert s[..n] == first[..n];
        CutMessageIsNotRead(d, ms[0], n);
      } else {
        var cut := EncodeMessages(ms[1..])[..n - |first|];
        CutConcat(first, EncodeMessages(ms[1..]), n);
        MessageRoundTrip(d, ms[0], cut);
        CutMessagesRead(d, ms[1..], n - |first|);
        PrefixAfterFirst(ms, DecodeMessages(d, cut));
      }
    }
  }

  lemma CutConcat(a: bytes, b: bytes, n: nat)
    requires |a| <= n <= |a| + |b|
    ensures (a + b)[..n] == a + b[..n - |a|]
  {
  }

  lemma PrefixAfterFirst(ms: seq<Message>, some: seq<Message>)
    requires ms != [] && some <= ms[1..]
    ensures [ms[0]] + some <= ms
  {
    assert ms == [ms[0]] + ms[1..];
  }

  // ---- Nothing is left behind ----

  /** What the writing coroutine does when it is let: it writes the rest of its action, and then the queue. */
  function Drain(pending: bytes, queue: seq<Message>): seq<Event>
    decreases |queue|
  {
    [Put(|pending|)]
    + if queue == [] then [] else [Dequeue] + Drain(EncodeMessage(queue[0]), queue[1..])
  }

  function Drained(w: Writer): Writer {
    Writer([], w.started + w.queue, [], w.wire + w.pending + EncodeMessages(w.queue))
  }

  lemma RunCons(capacity: nat, w: Writer, e: Event, events: seq<Event>, w': Writer)
    requires Enabled(capacity, w, e) && Run(capacity, Step(capacity, w, e), events, w')
    ensures Run(capacity, w, [e] + events, w')
  {
    assert ([e] + events)[1..] == events;
  }

  lemma DrainedAfterPut(capacity: nat, w: Writer)
    ensures Step(capacity, w, Put(|w.pending|)) == Writer(w.queue, w.started, [], w.wire + w.pending)
    ensures w.queue == [] ==> Drained(w) == Step(capacity, w, Put(|w.pending|))
  {
    assert w.started + [] == w.started && w.wire + w.pending + [] == w.wire + w.pending;
  }

  lemma DrainedAfterDequeue(w: Writer, next: Writer)
    requires w.queue != []
    requires next == Writer(w.queue[1..], w.started + [w.queue[0]], EncodeMessage(w.queue[0]), w.wire + w.pending)
    ensures Drained(next) == Drained(w)
  {
    TakeFirst(w.started, w.queue);
    Regroup(w.wire + w.pending, EncodeMessage(w.queue[0]), EncodeMessages(w.queue[1..]));
  }

  lemma {:induction false} DrainRuns(capacity: nat, w: Writer)
    ensures Run(capacity, w, Drain(w.pending, w.queue), Drained(w))
    decreases |w.queue|
  {
    var put := Step(capacity, w, Put(|w.pending|));
    DrainedAfterPut(capacity, w);
    if w.queue == [] {
      RunCons(capacity, w, Put(|w.pending|), [], put);
    } else {
      var next := Step(capacity, put, Dequeue);
      var rest := Drain(next.pending, next.queue);
      DrainedAfterDequeue(w, next);
      DrainRuns(capacity, next);
      RunCons(capacity, put, Dequeue, rest, Drained(w));
      RunCons(capacity, w, Put(|w.pending|), [Dequeue] + rest, Drained(w));
    }
  }

  lemma {:induction false} DrainQueuesNothing(pending: bytes, queue: seq<Message>)
    ensures MessagesOf(Drain(pending, queue)) == []
    decreases |queue|
  {
    var events := Drain(pending, queue);
    if queue == [] {
      assert events[1..] == [];
    } else {
      var rest := Drain(EncodeMessage(queue[0]), queue[1..]);
      DrainQueuesNothing(EncodeMessage(queue[0]), queue[1..]);
      assert events[1..] == [Dequeue] + rest && events[1..][1..] == rest;
    }
  }

  /** From every point of every run the writer can get on until the peer has read everything that was queued so far, in
      the order in which it was queued; and then every producer can queue one more message, whatever the capacity. */
  lemma EverythingCanArrive(capacity: nat, d: Direction, header: bytes, opening: seq<Message>,
                            events: seq<Event>, w: Writer)
    requires Run(capacity, Start(header, opening), events, w)
    requires forall m | m in opening + MessagesOf(events) :: WellFormed(d, m)
    ensures Run(capacity, w, Drain(w.pending, w.queue), Drained(w)) && MessagesOf(Drain(w.pending, w.queue)) == []
    ensures Drained(w).wire == header + EncodeMessages(opening + MessagesOf(events))
    ensures DecodeMessages(d, Drained(w).wire[|header|..]) == opening + MessagesOf(events)
    ensures forall m :: Enabled(capacity, Drained(w), Enqueue(m))
  {
    var all := opening + MessagesOf(events);
    InvAfter(capacity, header, opening, events, w);
    DrainRuns(capacity, w);
    DrainQueuesNothing(w.pending, w.queue);
    Regroup(opening, w.started, w.queue);
    EncodeMessagesConcat(opening + w.started, w.queue);
    Regroup(header, EncodeMessages(opening + w.started), EncodeMessages(w.queue));
    assert Drained(w).wire == header + EncodeMessages(all);
    assert Drained(w).wire[|header|..] == EncodeMessages(all);
    MessagesRoundTrip(d, all);
  }

  /** On the control socket the server tells a client its id, then its name, before anything that was queued. */
  lemma ControlSocketOpens(id: u64, name: bytes, events: seq<Event>, w: Writer)
    requires |name| < U64_LIMIT
    requires Run(20, Start([], [ClientIdMessage(id), ClientNameMessage(name)]), events, w)
    requires forall m | m in MessagesOf(events) :: WellFormed(ServerToClient, m)
    ensures var got := DecodeMessages(ServerToClient, w.wire);
            && got <= [ClientIdMessage(id), ClientNameMessage(name)] + MessagesOf(events)
            && (w.started != [] ==> |got| >= 2)
  {
    PeerReadsPrefix(20, ServerToClient, [], [ClientIdMessage(id), ClientNameMessage(name)], events, w);
    assert w.wire[0..] == w.wire;
  }

  /** A client first asks for the list of clients, after its one byte that tells the type of the connection. */
  lemma ClientSocketOpens(events: seq<Event>, w: Writer)
    requires Run(100, Start([CONTROL_CONNECTION], [GET_CLIENTS_LIST]), events, w)
    requires forall m | m in MessagesOf(events) :: WellFormed(ClientToServer, m)
    requires w.wire != []
    ensures w.wire[0] == CONTROL_CONNECTION
    ensures DecodeMessages(ClientToServer, w.wire[1..]) <= [GET_CLIENTS_LIST] + MessagesOf(events)
    ensures w.started != [] ==> DecodeMessages(ClientToServer, w.wire[1..]) != []
  {
    PeerReadsPrefix(100, ClientToServer, [CONTROL_CONNECTION], [GET_CLIENTS_LIST], events, w);
  }

  /** A browser reader, whose queue has no room at all, first asks for the directory the host runs in. */
  lemma ReaderSocketOpens(header: bytes, events: seq<Event>, w: Writer)
    requires Run(0, Start(header, [GetDentsMessage([])]), events, w)
    requires forall m | m in MessagesOf(events) :: WellFormed(ReaderToHost, m)
    requires |header| <= |w.wire|
    ensures header <= w.wire
    ensures DecodeMessages(ReaderToHost, w.wire[|header|..]) <= [GetDentsMessage([])] + MessagesOf(events)
    ensures w.started != [] ==> DecodeMessages(ReaderToHost, w.wire[|header|..]) != []
  {
    PeerReadsPrefix(0, ReaderToHost, header, [GetDentsMessage([])], events, w);
  }

  lemma OneMoreAction(sent: bytes, ms: seq<Message>, i: nat, all: bytes)
    requires i < |ms| && sent + EncodeMessages(ms[i..]) == all
    ensures sent + EncodeMessage(ms[i]) + EncodeMessages(ms[i + 1..]) == all
  {
    assert ms[i..][0] == ms[i] && ms[i..][1..] == ms[i + 1..];
  }

  /** The writing coroutine on a socket: opening messages, then the queued actions as long as the connection lasts. */
  method OutcomingMessages(sock: Socket, opening: seq<Message>, actions: seq<Message>) returns (ok: bool)
    modifies sock`output
    ensures Sent(old(sock.output), EncodeMessages(opening + actions), sock.output, ok)
    ensures sock.lasts ==> ok
  {
    ghost var before := sock.output;
    ghost var sent: bytes := [];
    var all := opening + actions;
    var i := 0;
    ok := true;
    while ok && i < |all|
      invariant 0 <= i <= |all|
      invariant Sent(before, sent, sock.output, ok) && (sock.lasts ==> ok)
      invariant sent + EncodeMessages(all[i..]) == EncodeMessages(all)
      decreases |all| - i, ok
    {
      ghost var mid := sock.output;
      ok := SendMessage(sock, all[i]);
      SentThen(before, sent, mid, EncodeMessage(all[i]), sock.output, ok);
      OneMoreAction(sent, all, i, EncodeMessages(all));
      sent := sent + EncodeMessage(all[i]);
      i := i + 1;
    }
    if ok {
      assert sent + [] == sent;
    } else {
      SentTooLittle(before, sent, sock.output, EncodeMessages(all[i..]));
    }
  }
}
