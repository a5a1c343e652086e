/** Browser connections: the header a client sends first, the handoff of its socket, and the relay in both directions. */
module Proxy {
  import opened Wire
  import opened Serde
  import opened Sockets

  const PROXY_CHUNK := 4096

  /** The first bytes of a browser or copy connection: its type and the token the client was given. */
  datatype Header = Header(connectionType: byte, token: u64)

  const HEADER_SIZE := 9

  function EncodeHeader(h: Header): (s: bytes)
    ensures |s| == HEADER_SIZE
  {
    [h.connectionType] + Word(h.token)
  }

  /** What a client does right after connecting. */
  method SendHeader(sock: Socket, h: Header) returns (ok: bool)
    modifies sock`output
    ensures Sent(old(sock.output), EncodeHeader(h), sock.output, ok)
    ensures sock.lasts ==> ok
  {
    ghost var before := sock.output;
    ok := sock.Write([h.connectionType]);
    if ok {
      ghost var mid := sock.output;
      ok := sock.Write(Word(h.token));
      SentThen(before, [h.connectionType], mid, Word(h.token), sock.output, ok);
    } else {
      SentTooLittle(before, [h.connectionType], sock.output, Word(h.token));
    }
  }

  /** What the server reads before it hands the socket over: nothing beyond the header is taken from the stream. */
  method ReceiveHeader(sock: Socket) returns (h: Option<Header>)
    modifies sock`input
    ensures h.Some? <==> |old(sock.input)| >= HEADER_SIZE
    ensures h.Some? ==> old(sock.input) == EncodeHeader(h.value) + sock.input
  {
    ghost var s := sock.input;
    var connectionType := sock.ReadExact(1);
    if connectionType == None {
      return None;
    }
    var token := RecvWord(sock);
    if token == None {
      return None;
    }
    h := Some(Header(connectionType.value[0], token.value));
    assert s == s[..1] + (s[1..][..8] + s[1..][8..]);
  }

  /** One direction of the relay, up to the end of the stream or to a failed write. */
  method ProxyOneWay(src: Socket, dst: Socket) returns (ended: bool)
    requires src != dst
    modifies src`input, dst`output
    ensures Sent(old(dst.output), old(src.input), dst.output, ended)
    ensures dst.lasts ==> ended
  {
    ghost var before := dst.output;
    ghost var s := src.input;
    ghost var sent: bytes := [];
    while true
      invariant s == sent + src.input
      invariant dst.output == before + sent
      decreases |src.input|
    {
      var block := src.ReadSome(PROXY_CHUNK);
      if block == None {
        return true;
      }
      ghost var mid := dst.output;
      var ok := dst.Write(block.value);
      assert s == sent + block.value + src.input;
      if !ok {
        SentThen(before, sent, mid, block.value, dst.output, false);
        SentTooLittle(before, sent + block.value, dst.output, src.input);
        return false;
      }
      sent := sent + block.value;
    }
  }

  // ---- Both directions at once ----

  /** One client's side: what it has sent, how much of it the server has read, and what of that it still holds. */
  datatype Side = Side(sent: bytes, read: nat, held: bytes, delivered: bytes)

  /** `delivered` of a side is what arrived at the other client. The relay runs once both headers were read and both
      sockets handed over, until one direction fails. */
  datatype State = State(first: Side, second: Side, relaying: bool, stopped: bool)

  function Start(first: Header, second: Header): State {
    State(Side(EncodeHeader(first), 0, [], []), Side(EncodeHeader(second), 0, [], []), false, false)
  }

  datatype Event =
    | ClientSends(isFirst: bool, data: bytes)     // at any time, also long before the relay starts
    | ReadType(isFirst: bool)
    | ReadToken(isFirst: bool)
    | Handoff
    | ReadSome(isFirst: bool, n: nat)
    | WriteSome(isFirst: bool, n: nat)
    | Stop

  function Get(s: State, isFirst: bool): Side {
    if isFirst then s.first else s.second
  }

  function Set(s: State, isFirst: bool, side: Side): State {
    if isFirst then s.(first := side) else s.(second := side)
  }

  predicate Enabled(s: State, e: Event) {
    match e
    case ClientSends(_, _) => true
    case ReadType(f) => Get(s, f).read == 0
    case ReadToken(f) => Get(s, f).read == 1 && |Get(s, f).sent| >= HEADER_SIZE
    case Handoff => s.first.read == HEADER_SIZE && s.second.read == HEADER_SIZE && !s.relaying
    case ReadSome(f, n) =>
      && s.relaying && !s.stopped && Get(s, f).held == []
      && 1 <= n <= PROXY_CHUNK && Get(s, f).read + n <= |Get(s, f).sent|
    case WriteSome(f, n) => s.relaying && !s.stopped && 1 <= n <= |Get(s, f).held|
    case Stop => s.relaying
  }

  function Step(s: State, e: Event): State
    requires Enabled(s, e)
  {
    match e
    case ClientSends(f, data) => Set(s, f, Get(s, f).(sent := Get(s, f).sent + data))
    case ReadType(f) => Set(s, f, Get(s, f).(read := 1))
    case ReadToken(f) => Set(s, f, Get(s, f).(read := 1 + 8))
    case Handoff => s.(relaying := true)
    case ReadSome(f, n) =>
      var side := Get(s, f);
      Set(s, f, side.(read := side.read + n, held := side.sent[side.read..side.read + n]))
    case WriteSome(f, n) =>
      var side := Get(s, f);
      Set(s, f, side.(held := side.held[n..], delivered := side.delivered + side.held[..n]))
    case Stop => s.(stopped := true)
  }

  ghost predicate Run(s: State, events: seq<Event>, s': State)
    decreases |events|
  {
    if events == [] then s' == s
    else Enabled(s, events[0]) && Run(Step(s, events[0]), events[1..], s')
  }

  /** What was read beyond the header was delivered, or is held. */
  ghost predicate SideFits(h: Header, side: Side, relaying: bool) {
    && EncodeHeader(h) <= side.sent && side.read <= |side.sent|
    && (relaying ==> side.read >= HEADER_SIZE)
    && (!relaying ==> side.read == 0 || side.read == 1 || side.read == HEADER_SIZE)
    && side.delivered + side.held == if side.read > HEADER_SIZE then side.sent[HEADER_SIZE..side.read] else []
  }

  ghost predicate Inv(first: Header, second: Header, s: State) {
    SideFits(first, s.first, s.relaying) && SideFits(second, s.second, s.relaying)
  }

  lemma ReadKeepsSide(h: Header, side: Side, n: nat)
    requires SideFits(h, side, true) && side.held == [] && side.read + n <= |side.sent|
    ensures SideFits(h, side.(read := side.read + n, held := side.sent[side.read..side.read + n]), true)
  {
    assert side.delivered + [] == side.delivered;
    assert side.sent[HEADER_SIZE..side.read + n]
        == side.sent[HEADER_SIZE..side.read] + side.sent[side.read..side.read + n];
  }

  lemma WriteKeepsSide(h: Header, side: Side, n: nat)
    requires SideFits(h, side, true) && n <= |side.held|
    ensures SideFits(h, side.(held := side.held[n..], delivered := side.delivered + side.held[..n]), true)
  {
    assert side.delivered + side.held[..n] + side.held[n..] == side.delivered + side.held;
  }

  lemma SendKeepsSide(h: Header, side: Side, data: bytes, relaying: bool)
    requires SideFits(h, side, relaying)
    ensures SideFits(h, side.(sent := side.sent + data), relaying)
  {
    if side.read > HEADER_SIZE {
      assert (side.sent + data)[HEADER_SIZE..side.read] == side.sent[HEADER_SIZE..side.read];
    }
  }

  lemma StepKeepsInv(first: Header, second: Header, s: State, e: Event)
    requires Inv(first, second, s) && Enabled(s, e)
    ensures Inv(first, second, Step(s, e))
  {
    match e
    case ClientSends(f, data) =>
      SendKeepsSide(if f then first else second, Get(s, f), data, s.relaying);
      SetKeepsInv(first, second, s, f, Get(s, f).(sent := Get(s, f).sent + data));
    case ReadType(f) =>
      assert !s.relaying;
      SetKeepsInv(first, second, s, f, Get(s, f).(read := 1));
    case ReadToken(f) =>
      assert !s.relaying;
      SetKeepsInv(first, second, s, f, Get(s, f).(read := 1 + 8));
    case ReadSome(f, n) =>
      var side := Get(s, f);
      ReadKeepsSide(if f then first else second, side, n);
      SetKeepsInv(first, second, s, f,
                  side.(read := side.read + n, held := side.sent[side.read..side.read + n]));
    case WriteSome(f, n) =>
      var side := Get(s, f);
      WriteKeepsSide(if f then first else second, side, n);
      SetKeepsInv(first, second, s, f, side.(held := side.held[n..], delivered := side.delivered + side.held[..n]));
    case _ =>
  }

  lemma SetKeepsInv(first: Header, second: Header, s: State, f: bool, side: Side)
    requires Inv(first, second, s) && SideFits(if f then first else second, side, s.relaying)
    ensures Inv(first, second, Set(s, f, side))
  {
  }

  lemma {:induction false} RunKeepsInv(first: Header, second: Header, s: State, events: seq<Event>, s': State)
    requires Inv(first, second, s) && Run(s, events, s')
    ensures Inv(first, second, s')
    decreases |events|
  {
    if events != [] {
      StepKeepsInv(first, second, s, events[0]);
      RunKeepsInv(first, second, Step(s, events[0]), events[1..], s');
    }
  }

  /** What a client received is a prefix of what the other one sent after its header; while the server holds nothing, it
      is everything the server has read of that. */
  ghost predicate Faithful(side: Side, relaying: bool) {
    && HEADER_SIZE <= |side.sent| && side.read <= |side.sent|
    && side.delivered <= side.sent[HEADER_SIZE..]
    && (if relaying
        then side.read >= HEADER_SIZE && (side.held == [] ==> side.delivered == side.sent[HEADER_SIZE..side.read])
        else side.delivered == [])
  }

  /** However the two directions interleave and wherever the relay stops, both directions are faithful: nothing is lost,
      repeated or reordered, not even where the socket changes hands. */
  lemma RelayIsFaithful(first: Header, second: Header, events: seq<Event>, s: State)
    requires Run(Start(first, second), events, s)
    ensures Faithful(s.first, s.relaying) && Faithful(s.second, s.relaying)
  {
    RunKeepsInv(first, second, Start(first, second), events, s);
    SideIsFaithful(first, s.first, s.relaying);
    SideIsFaithful(second, s.second, s.relaying);
  }

  lemma SideIsFaithful(h: Header, side: Side, relaying: bool)
    requires SideFits(h, side, relaying)
    ensures Faithful(side, relaying)
  {
    if side.read > HEADER_SIZE {
      var k := |side.delivered|;
      assert side.delivered == (side.delivered + side.held)[..k] == side.sent[HEADER_SIZE..][..k];
      assert side.delivered + [] == side.delivered;
    } else {
      assert side.delivered == [];
    }
  }

  // ---- Everything can arrive ----

  ghost predicate Leads(s: State, s': State) {
    exists events :: Run(s, events, s')
  }

  lemma LeadsNowhere(s: State)
    ensures Leads(s, s)
  {
    assert Run(s, [], s);
  }

  lemma LeadsFirst(s: State, e: Event, s': State)
    requires Enabled(s, e) && Leads(Step(s, e), s')
    ensures Leads(s, s')
  {
    var events :| Run(Step(s, e), events, s');
    assert ([e] + events)[1..] == events;
    assert Run(s, [e] + events, s');
  }

  /** Everything the client has sent after its header has arrived at the other one. */
  ghost predicate AllArrived(side: Side) {
    |side.sent| >= HEADER_SIZE && side.delivered == side.sent[HEADER_SIZE..]
  }

  /** The server can read a header as soon as it was sent. */
  lemma {:induction false} CanReadHeader(first: Header, second: Header, s: State, f: bool) returns (s': State)
    requires Inv(first, second, s) && !s.relaying && !s.stopped
    ensures Leads(s, s') && Inv(first, second, s') && !s'.relaying && !s'.stopped
    ensures Get(s', f).read == HEADER_SIZE && Get(s', f).sent == Get(s, f).sent && Get(s', !f) == Get(s, !f)
    decreases HEADER_SIZE - Get(s, f).read
  {
    LeadsNowhere(s);
    var read := Get(s, f).read;
    if read == HEADER_SIZE {
      s' := s;
    } else {
      var e := if read == 0 then ReadType(f) else ReadToken(f);
      StepKeepsInv(first, second, s, e);
      s' := CanReadHeader(first, second, Step(s, e), f);
      LeadsFirst(s, e, s');
    }
  }

  /** While the relay runs it can deliver everything one client has sent, and does not need the other one for that. */
  lemma {:induction false} CanDeliver(first: Header, second: Header, s: State, f: bool) returns (s': State)
    requires Inv(first, second, s) && s.relaying && !s.stopped
    ensures Leads(s, s') && Inv(first, second, s') && s'.relaying && !s'.stopped
    ensures AllArrived(Get(s', f)) && Get(s', f).sent == Get(s, f).sent && Get(s', !f) == Get(s, !f)
    decreases |Get(s, f).sent| - Get(s, f).read, |Get(s, f).held|
  {
    LeadsNowhere(s);
    var side := Get(s, f);
    if side.held == [] && side.read == |side.sent| {
      s' := s;
      AllWasDelivered(if f then first else second, side);
    } else {
      var e := if side.held != [] then WriteSome(f, |side.held|)
               else ReadSome(f, Min(PROXY_CHUNK, |side.sent| - side.read));
      StepKeepsInv(first, second, s, e);
      s' := CanDeliver(first, second, Step(s, e), f);
      LeadsFirst(s, e, s');
    }
  }

  lemma AllWasDelivered(h: Header, side: Side)
    requires SideFits(h, side, true) && side.held == [] && side.read == |side.sent|
    ensures AllArrived(side)
  {
    assert side.delivered + [] == side.delivered;
  }

  lemma {:induction false} LeadsThen(s: State, s': State, s'': State)
    requires Leads(s, s') && Leads(s', s'')
    ensures Leads(s, s'')
  {
    var a :| Run(s, a, s');
    RunThen(s, a, s', s'');
  }

  lemma {:induction false} RunThen(s: State, a: seq<Event>, s': State, s'': State)
    requires Run(s, a, s') && Leads(s', s'')
    ensures Leads(s, s'')
    decreases |a|
  {
    if a != [] {
      RunThen(Step(s, a[0]), a[1..], s', s'');
      LeadsFirst(s, a[0], s'');
    }
  }

  /** From every point of every run at which no direction has failed, everything that either client has sent so far after
      its header can arrive at the other one. */
  lemma EverythingCanArrive(first: Header, second: Header, events: seq<Event>, s: State)
    requires Run(Start(first, second), events, s) && !s.stopped
    ensures exists s' ::
              && Leads(s, s') && AllArrived(s'.first) && AllArrived(s'.second)
              && s'.first.sent == s.first.sent && s'.second.sent == s.second.sent
  {
    RunKeepsInv(first, second, Start(first, second), events, s);
    var relaying := s;
    LeadsNowhere(s);
    if !s.relaying {
      var one := CanReadHeader(first, second, s, true);
      var both := CanReadHeader(first, second, one, false);
      assert Get(both, true).read == HEADER_SIZE && Get(both, false).read == HEADER_SIZE;
      StepKeepsInv(first, second, both, Handoff);
      relaying := Step(both, Handoff);
      LeadsNowhere(relaying);
      LeadsFirst(both, Handoff, relaying);
      LeadsThen(one, both, relaying);
      LeadsThen(s, one, relaying);
    }
    var there := CanDeliver(first, second, relaying, true);
    var s' := CanDeliver(first, second, there, false);
    LeadsThen(s, relaying, there);
    LeadsThen(s, there, s');
    assert Get(s', true) == Get(there, true);
    assert AllArrived(s'.first) && AllArrived(s'.second);
  }

  lemma {:induction false} StoppedIsFinal(s: State, events: seq<Event>, s': State)
    requires s.stopped && Run(s, events, s')
    ensures s'.stopped && s'.first.delivered == s.first.delivered && s'.second.delivered == s.second.delivered
    decreases |events|
  {
    if events != [] {
      StoppedIsFinal(Step(s, events[0]), events[1..], s');
    }
  }

  /** When one direction fails, both stop: nothing more arrives at either client, ever. */
  lemma StoppingIsFinal(s: State, events: seq<Event>, s': State)
    requires Enabled(s, Stop) && Run(Step(s, Stop), events, s')
    ensures s'.first.delivered == s.first.delivered && s'.second.delivered == s.second.delivered
  {
    StoppedIsFinal(Step(s, Stop), events, s');
  }
}
