/** How the server brings two clients together: tokens, invitations, connections and channels of sockets. */
module Rendezvous {
  import opened Wire

  type ClientId = u64
  type Token = u64

  /** Number of a handshake, of an invitation; in the order they come into being. */
  type Id = nat

  datatype Kind = Browser | Copy

  /** The host of a browser, or the source of a copy, is invited first; the reader or the destination second. */
  datatype Role = First | Second

  datatype Phase =
    | Opened          // the channel exists, nobody is invited
    | WaitFirst       // the first client is invited, the coroutine waits for its socket
    | GotFirst
    | WaitSecond
    | GotSecond
    | Paired          // both sockets are in use; a browser's channel is gone
    | Refused         // the token was taken: no channel was made
    | Abandoned       // inviting a client failed; the channel stays behind

  /** A running `process_browser_conn` or `copy_handshake`; the sockets it took, by invitation. */
  datatype Handshake = Handshake(
    kind: Kind, first: ClientId, second: ClientId, token: Token, phase: Phase,
    firstSocket: Option<Id>, secondSocket: Option<Id>)

  /** An invitation and the one connection a client makes for it. */
  datatype Stage =
    | Queued               // on its way to the client
    | Connected            // the client has connected and sent type and token
    | Blocked(chan: Id)    // the server offers the socket to the channel of a handshake
    | Taken(into: Id)        // a handshake took the socket
    | Dead                 // the client went away, or its token was not expected

  /** What is sent: `client` is where it goes, `kind` and `token` are what it says. `origin` and `role` record where it
      came from; no step looks at them. */
  datatype Ticket = Ticket(client: ClientId, kind: Kind, token: Token, stage: Stage, origin: Id, role: Role)

  /** The state of all handshakes; a channel is named after the handshake that made it. */
  datatype State = State(
    handshakes: seq<Handshake>,
    tickets: seq<Ticket>,
    pendingBrowsers: map<Token, Id>,
    pendingCopies: map<Token, Id>)

  const INIT := State([], [], map[], map[])

  function Pending(s: State, k: Kind): map<Token, Id> {
    if k == Browser then s.pendingBrowsers else s.pendingCopies
  }

  function SetPending(s: State, k: Kind, m: map<Token, Id>): State {
    if k == Browser then s.(pendingBrowsers := m) else s.(pendingCopies := m)
  }

  // ---- The three helpers that work on a map of channels ----

  /** A new channel; it throws when the token is in use. */
  function NewSocketsChan(pending: map<Token, Id>, token: Token, chan: Id): Option<map<Token, Id>> {
    if token in pending then None else Some(pending[token := chan])
  }

  /** The channel for a token; it throws when there is none. */
  function GetSocketsChan(pending: map<Token, Id>, token: Token): Option<Id> {
    if token in pending then Some(pending[token]) else None
  }

  function DeleteSocketsChan(pending: map<Token, Id>, token: Token): map<Token, Id> {
    pending - {token}
  }

  // ---- The steps ----

  datatype Event =
    | Spawn(kind: Kind, first: ClientId, second: ClientId, token: Token)  // the token is drawn at random
    | InviteFirst(h: Id)
    | InviteSecond(h: Id)
    | Abandon(h: Id)               // the queue of the client to be invited is closed
    | Connect(t: Id)
    | Lose(t: Id)
    | Arrive(t: Id)                // the server has read type and token, and looks for the channel
    | TakeFirst(h: Id, t: Id)
    | TakeSecond(h: Id, t: Id)
    | Finish(h: Id)

  predicate InPhase(s: State, h: Id, p: Phase) {
    h < |s.handshakes| && s.handshakes[h].phase == p
  }

  predicate InStage(s: State, t: Id, g: Stage) {
    t < |s.tickets| && s.tickets[t].stage == g
  }

  predicate Enabled(s: State, e: Event) {
    match e
    case Spawn(_, _, _, _) => true
    case InviteFirst(h) => InPhase(s, h, Opened)
    case InviteSecond(h) => InPhase(s, h, GotFirst)
    case Abandon(h) => InPhase(s, h, Opened) || InPhase(s, h, GotFirst)
    case Connect(t) => InStage(s, t, Queued)
    case Lose(t) => InStage(s, t, Queued) || InStage(s, t, Connected)
    case Arrive(t) => InStage(s, t, Connected)
    case TakeFirst(h, t) => InPhase(s, h, WaitFirst) && InStage(s, t, Blocked(h))
    case TakeSecond(h, t) => InPhase(s, h, WaitSecond) && InStage(s, t, Blocked(h))
    case Finish(h) => InPhase(s, h, GotSecond)
  }

  function SetPhase(s: State, h: Id, p: Phase): State
    requires h < |s.handshakes|
  {
    s.(handshakes := s.handshakes[h := s.handshakes[h].(phase := p)])
  }

  function SetStage(s: State, t: Id, g: Stage): State
    requires t < |s.tickets|
  {
    s.(tickets := s.tickets[t := s.tickets[t].(stage := g)])
  }

  function Invite(s: State, h: Id, role: Role): State
    requires h < |s.handshakes|
  {
    var hs := s.handshakes[h];
    s.(tickets := s.tickets
       + [Ticket(if role == First then hs.first else hs.second, hs.kind, hs.token, Queued, h, role)])
  }

  function Take(s: State, h: Id, t: Id, role: Role): State
    requires h < |s.handshakes| && t < |s.tickets|
  {
    var hs := s.handshakes[h];
    SetStage(s, t, Taken(h)).(
      handshakes := s.handshakes[h := if role == First then hs.(phase := GotFirst, firstSocket := Some(t))
                                      else hs.(phase := GotSecond, secondSocket := Some(t))])
  }

  function Step(s: State, e: Event): State
    requires Enabled(s, e)
  {
    match e
    case Spawn(kind, first, second, token) =>
      var h := |s.handshakes|;
      (match NewSocketsChan(Pending(s, kind), token, h)
       case None => s.(handshakes := s.handshakes + [Handshake(kind, first, second, token, Refused, None, None)])
       case Some(pending) =>
         SetPending(s, kind, pending).(
           handshakes := s.handshakes + [Handshake(kind, first, second, token, Opened, None, None)]))
    case InviteFirst(h) => SetPhase(Invite(s, h, First), h, WaitFirst)
    case InviteSecond(h) => SetPhase(Invite(s, h, Second), h, WaitSecond)
    case Abandon(h) => SetPhase(s, h, Abandoned)
    case Connect(t) => SetStage(s, t, Connected)
    case Lose(t) => SetStage(s, t, Dead)
    case Arrive(t) =>
      (match GetSocketsChan(Pending(s, s.tickets[t].kind), s.tickets[t].token)
       case None => SetStage(s, t, Dead)
       case Some(chan) => SetStage(s, t, Blocked(chan)))
    case TakeFirst(h, t) => Take(s, h, t, First)
    case TakeSecond(h, t) => Take(s, h, t, Second)
    case Finish(h) =>
      var done := SetPhase(s, h, Paired);
      if s.handshakes[h].kind == Browser
      then SetPending(done, Browser, DeleteSocketsChan(s.pendingBrowsers, s.handshakes[h].token))
      else done
  }

  ghost predicate Run(s: State, events: seq<Event>, s': State)
    decreases |events|
  {
    if events == [] then s' == s
    else Enabled(s, events[0]) && Run(Step(s, events[0]), events[1..], s')
  }

  ghost predicate Reachable(s: State) {
    exists events :: Run(INIT, events, s)
  }

  // ---- The inductive invariant ----

  /** The handshake made a channel, and the channel was not removed. */
  predicate OwnsChannel(h: Handshake) {
    h.phase != Refused && !(h.phase == Paired && h.kind == Browser)
  }

  /** The invitation, or the connection made for it, has not reached a handshake yet. */
  predicate Undelivered(t: Ticket) {
    t.stage == Queued || t.stage == Connected || t.stage.Blocked?
  }

  /** The handshake has invited a client in this role. */
  predicate Invited(h: Handshake, role: Role) {
    match role
    case First => h.phase != Opened && h.phase != Refused && (h.phase == Abandoned ==> h.firstSocket.Some?)
    case Second => h.phase == WaitSecond || h.phase == GotSecond || h.phase == Paired
  }

  /** The sockets a handshake has in each phase. */
  predicate SocketsFit(h: Handshake) {
    match h.phase
    case Opened | WaitFirst | Refused => h.firstSocket == None && h.secondSocket == None
    case GotFirst | WaitSecond => h.firstSocket.Some? && h.secondSocket == None
    case GotSecond | Paired => h.firstSocket.Some? && h.secondSocket.Some?
    case Abandoned => h.secondSocket == None
  }

  /** A map of channels and the handshakes of its kind agree about which channels exist. */
  ghost predicate ChannelsFit(hs: seq<Handshake>, k: Kind, pending: map<Token, Id>) {
    && (forall h | 0 <= h < |hs| && hs[h].kind == k && OwnsChannel(hs[h]) ::
          hs[h].token in pending && pending[hs[h].token] == h)
    && (forall token | token in pending ::
          && pending[token] < |hs| && OwnsChannel(hs[pending[token]])
          && hs[pending[token]].kind == k && hs[pending[token]].token == token)
  }

  /** A ticket says what its handshake made it say, and is undelivered only while the handshake waits for it. */
  ghost predicate TicketFits(hs: seq<Handshake>, t: Ticket) {
    && t.origin < |hs|
    && var h := hs[t.origin];
       && t.kind == h.kind && t.token == h.token
       && t.client == (if t.role == First then h.first else h.second)
       && Invited(h, t.role)
       && (Undelivered(t) ==> h.phase == (if t.role == First then WaitFirst else WaitSecond))
       && (t.stage.Blocked? ==> t.stage.chan == t.origin)
       && (t.stage.Taken? ==> t.stage.into == t.origin)
  }

  ghost predicate TicketsFit(hs: seq<Handshake>, ts: seq<Ticket>) {
    forall t | 0 <= t < |ts| :: TicketFits(hs, ts[t])
  }

  /** There is one invitation for each role of a handshake. */
  ghost predicate OneEach(ts: seq<Ticket>) {
    forall t, u | 0 <= t < u < |ts| :: ts[t].origin != ts[u].origin || ts[t].role != ts[u].role
  }

  /** The socket a handshake has in a role, if any, was taken from the connection of its own invitation in that role. */
  predicate Owns(ts: seq<Ticket>, h: Id, role: Role, socket: Option<Id>) {
    socket.Some? ==>
      && socket.value < |ts|
      && ts[socket.value].origin == h && ts[socket.value].role == role && ts[socket.value].stage == Taken(h)
  }

  ghost predicate SocketsOwned(hs: seq<Handshake>, ts: seq<Ticket>) {
    forall h | 0 <= h < |hs| ::
      && SocketsFit(hs[h])
      && Owns(ts, h, First, hs[h].firstSocket) && Owns(ts, h, Second, hs[h].secondSocket)
  }

  /** The handshake has invited a client in this role, and has not got the connection made for it. */
  ghost predicate Awaited(ts: seq<Ticket>, h: Id, role: Role) {
    exists t :: 0 <= t < |ts| && ts[t].origin == h && ts[t].role == role && !ts[t].stage.Taken?
  }

  function RoleAwaited(p: Phase): Option<Role> {
    match p
    case WaitFirst => Some(First)
    case WaitSecond => Some(Second)
    case _ => None
  }

  /** No handshake waits for a client that it has not invited. */
  ghost predicate WaitersInvited(hs: seq<Handshake>, ts: seq<Ticket>) {
    forall h | 0 <= h < |hs| && RoleAwaited(hs[h].phase).Some? :: Awaited(ts, h, RoleAwaited(hs[h].phase).value)
  }

  ghost predicate Inv(s: State) {
    && ChannelsFit(s.handshakes, Browser, s.pendingBrowsers)
    && ChannelsFit(s.handshakes, Copy, s.pendingCopies)
    && TicketsFit(s.handshakes, s.tickets)
    && OneEach(s.tickets)
    && SocketsOwned(s.handshakes, s.tickets)
    && WaitersInvited(s.handshakes, s.tickets)
  }

  lemma InitInv()
    ensures Inv(INIT)
  {
  }

  /** Changing one handshake keeps the channels if it keeps kind, token, and what it owns. */
  lemma ChannelsKept(hs: seq<Handshake>, h: Id, new': Handshake, k: Kind, pending: map<Token, Id>)
    requires h < |hs| && ChannelsFit(hs, k, pending) && new'.kind == hs[h].kind
    requires new'.kind == k ==> new'.token == hs[h].token && OwnsChannel(new') == OwnsChannel(hs[h])
    ensures ChannelsFit(hs[h := new'], k, pending)
  {
  }

  lemma ChannelRemoved(hs: seq<Handshake>, h: Id, new': Handshake, k: Kind, pending: map<Token, Id>)
    requires h < |hs| && ChannelsFit(hs, k, pending) && OwnsChannel(hs[h]) && !OwnsChannel(new')
    requires new'.kind == hs[h].kind == k && new'.token == hs[h].token
    ensures ChannelsFit(hs[h := new'], k, DeleteSocketsChan(pending, hs[h].token))
  {
    forall g | 0 <= g < |hs| && g != h && hs[g].kind == k && OwnsChannel(hs[g])
      ensures hs[g].token != hs[h].token
    {
      assert pending[hs[g].token] == g && pending[hs[h].token] == h;
    }
  }

  /** Changing one handshake keeps the tickets of the others. */
  lemma TicketsKept(hs: seq<Handshake>, ts: seq<Ticket>, h: Id, new': Handshake)
    requires h < |hs| && TicketsFit(hs, ts)
    requires forall t | 0 <= t < |ts| && ts[t].origin == h :: TicketFits(hs[h := new'], ts[t])
    ensures TicketsFit(hs[h := new'], ts)
  {
    forall t | 0 <= t < |ts| ensures TicketFits(hs[h := new'], ts[t]) {
      assert TicketFits(hs, ts[t]);
    }
  }

  /** Changing the phase of one handshake keeps the sockets, if they fit the new phase and the tickets stay. */
  lemma SocketsKept(hs: seq<Handshake>, ts: seq<Ticket>, h: Id, p: Phase, ts': seq<Ticket>)
    requires h < |hs| && SocketsOwned(hs, ts) && SocketsFit(hs[h].(phase := p)) && ts <= ts'
    ensures SocketsOwned(hs[h := hs[h].(phase := p)], ts')
  {
    forall g | 0 <= g < |hs|
      ensures Owns(ts', g, First, hs[g].firstSocket) && Owns(ts', g, Second, hs[g].secondSocket)
    {
      assert SocketsFit(hs[g]) && Owns(ts, g, First, hs[g].firstSocket) && Owns(ts, g, Second, hs[g].secondSocket);
    }
  }

  lemma ChannelsWithOneMore(hs: seq<Handshake>, new': Handshake, k: Kind, pending: map<Token, Id>, next: map<Token, Id>)
    requires ChannelsFit(hs, k, pending)
    requires if new'.kind == k && OwnsChannel(new') then NewSocketsChan(pending, new'.token, |hs|) == Some(next)
             else next == pending
    ensures ChannelsFit(hs + [new'], k, next)
  {
    assert forall h | 0 <= h < |hs| :: (hs + [new'])[h] == hs[h];
  }

  lemma SocketsWithOneMore(hs: seq<Handshake>, ts: seq<Ticket>, new': Handshake)
    requires SocketsOwned(hs, ts) && SocketsFit(new') && new'.firstSocket == None && new'.secondSocket == None
    ensures SocketsOwned(hs + [new'], ts)
  {
    forall h | 0 <= h < |hs|
      ensures SocketsFit(hs[h]) && Owns(ts, h, First, hs[h].firstSocket) && Owns(ts, h, Second, hs[h].secondSocket)
    {
    }
  }

  /** A handshake goes on waiting as long as its invitations stay what they are, or are on their way. */
  lemma WaitersKept(hs: seq<Handshake>, ts: seq<Ticket>, hs': seq<Handshake>, ts': seq<Ticket>)
    requires WaitersInvited(hs, ts) && |ts| <= |ts'|
    requires forall h | 0 <= h < |hs'| && RoleAwaited(hs'[h].phase).Some? ::
               || Awaited(ts', h, RoleAwaited(hs'[h].phase).value)
               || (&& h < |hs| && hs[h].phase == hs'[h].phase
                   && forall t | 0 <= t < |ts| && ts[t].origin == h ::
                        && ts'[t].origin == h && ts'[t].role == ts[t].role
                        && (ts'[t].stage.Taken? ==> ts[t].stage.Taken?))
    ensures WaitersInvited(hs', ts')
  {
    forall h | 0 <= h < |hs'| && RoleAwaited(hs'[h].phase).Some?
      ensures Awaited(ts', h, RoleAwaited(hs'[h].phase).value)
    {
      assert h < |hs| && hs[h].phase == hs'[h].phase ==> Awaited(ts, h, RoleAwaited(hs'[h].phase).value);
    }
  }

  lemma SpawnKeepsInv(s: State, kind: Kind, first: ClientId, second: ClientId, token: Token)
    requires Inv(s)
    ensures Inv(Step(s, Spawn(kind, first, second, token)))
  {
    var s' := Step(s, Spawn(kind, first, second, token));
    var new' := s'.handshakes[|s.handshakes|];
    ChannelsWithOneMore(s.handshakes, new', Browser, s.pendingBrowsers, s'.pendingBrowsers);
    ChannelsWithOneMore(s.handshakes, new', Copy, s.pendingCopies, s'.pendingCopies);
    forall t | 0 <= t < |s.tickets| ensures TicketFits(s'.handshakes, s.tickets[t]) {
      assert TicketFits(s.handshakes, s.tickets[t]);
    }
    SocketsWithOneMore(s.handshakes, s.tickets, new');
    WaitersKept(s.handshakes, s.tickets, s'.handshakes, s.tickets);
  }

  /** Before it invites a client in a role, a handshake has no ticket in that role. */
  lemma NotInvitedYet(s: State, h: Id, role: Role, t: Id)
    requires Inv(s) && InPhase(s, h, if role == First then Opened else GotFirst)
    requires t < |s.tickets| && s.tickets[t].origin == h
    ensures s.tickets[t].role == First && role == Second && !Undelivered(s.tickets[t])
  {
    assert TicketFits(s.handshakes, s.tickets[t]);
  }

  lemma InviteKeepsTickets(s: State, h: Id, role: Role)
    requires Inv(s) && InPhase(s, h, if role == First then Opened else GotFirst)
    ensures var s' := SetPhase(Invite(s, h, role), h, if role == First then WaitFirst else WaitSecond);
            TicketsFit(s'.handshakes, s'.tickets) && OneEach(s'.tickets)
  {
    var s' := SetPhase(Invite(s, h, role), h, if role == First then WaitFirst else WaitSecond);
    var n := |s.tickets|;
    forall t | 0 <= t < n && s.tickets[t].origin == h
      ensures TicketFits(s'.handshakes, s.tickets[t]) && s.tickets[t].role != role
    {
      assert TicketFits(s.handshakes, s.tickets[t]);
      NotInvitedYet(s, h, role, t);
    }
    TicketsKept(s.handshakes, s.tickets, h, s'.handshakes[h]);
    assert TicketFits(s'.handshakes, s'.tickets[n]);
    forall t | 0 <= t < n ensures s'.tickets[t] == s.tickets[t] && TicketFits(s'.handshakes, s'.tickets[t]) {
      assert TicketFits(s'.handshakes, s.tickets[t]);
    }
  }

  lemma InvitedIsAwaited(s: State, h: Id, role: Role)
    requires h < |s.handshakes|
    ensures Awaited(Invite(s, h, role).tickets, h, role)
  {
    var t := Invite(s, h, role).tickets[|s.tickets|];
    assert t.origin == h && t.role == role && t.stage == Queued;
  }

  lemma InviteKeepsInv(s: State, h: Id, role: Role)
    requires Inv(s) && InPhase(s, h, if role == First then Opened else GotFirst)
    ensures Inv(SetPhase(Invite(s, h, role), h, if role == First then WaitFirst else WaitSecond))
  {
    var s' := SetPhase(Invite(s, h, role), h, if role == First then WaitFirst else WaitSecond);
    ChannelsKept(s.handshakes, h, s'.handshakes[h], Browser, s.pendingBrowsers);
    ChannelsKept(s.handshakes, h, s'.handshakes[h], Copy, s.pendingCopies);
    InviteKeepsTickets(s, h, role);
    SocketsKept(s.handshakes, s.tickets, h, s'.handshakes[h].phase, s'.tickets);
    InvitedIsAwaited(s, h, role);
    WaitersKept(s.handshakes, s.tickets, s'.handshakes, s'.tickets);
  }

  lemma AbandonKeepsInv(s: State, h: Id)
    requires Inv(s) && (InPhase(s, h, Opened) || InPhase(s, h, GotFirst))
    ensures Inv(SetPhase(s, h, Abandoned))
  {
    var s' := SetPhase(s, h, Abandoned);
    ChannelsKept(s.handshakes, h, s'.handshakes[h], Browser, s.pendingBrowsers);
    ChannelsKept(s.handshakes, h, s'.handshakes[h], Copy, s.pendingCopies);
    forall t | 0 <= t < |s.tickets| && s.tickets[t].origin == h
      ensures TicketFits(s'.handshakes, s.tickets[t])
    {
      assert TicketFits(s.handshakes, s.tickets[t]);
    }
    TicketsKept(s.handshakes, s.tickets, h, s'.handshakes[h]);
    SocketsKept(s.handshakes, s.tickets, h, Abandoned, s.tickets);
    WaitersKept(s.handshakes, s.tickets, s'.handshakes, s.tickets);
  }

  lemma StageKeepsTickets(s: State, t: Id, g: Stage)
    requires Inv(s) && t < |s.tickets| && Undelivered(s.tickets[t])
    requires g == Connected || g == Dead || g == Blocked(s.tickets[t].origin)
    ensures TicketsFit(s.handshakes, SetStage(s, t, g).tickets) && OneEach(SetStage(s, t, g).tickets)
  {
    var s' := SetStage(s, t, g);
    forall u | 0 <= u < |s.tickets| ensures TicketFits(s.handshakes, s'.tickets[u]) {
      assert TicketFits(s.handshakes, s.tickets[u]);
    }
  }

  /** A socket that was taken is not touched. */
  lemma StageKeepsSockets(hs: seq<Handshake>, ts: seq<Ticket>, t: Id, g: Stage)
    requires SocketsOwned(hs, ts) && t < |ts| && Undelivered(ts[t])
    ensures SocketsOwned(hs, ts[t := ts[t].(stage := g)])
  {
    var ts' := ts[t := ts[t].(stage := g)];
    forall h | 0 <= h < |hs|
      ensures SocketsFit(hs[h]) && Owns(ts', h, First, hs[h].firstSocket) && Owns(ts', h, Second, hs[h].secondSocket)
    {
      assert Owns(ts, h, First, hs[h].firstSocket) && Owns(ts, h, Second, hs[h].secondSocket);
    }
  }

  lemma StageKeepsInv(s: State, t: Id, g: Stage)
    requires Inv(s) && t < |s.tickets| && Undelivered(s.tickets[t])
    requires g == Connected || g == Dead || g == Blocked(s.tickets[t].origin)
    ensures Inv(SetStage(s, t, g))
  {
    StageKeepsTickets(s, t, g);
    StageKeepsSockets(s.handshakes, s.tickets, t, g);
    StageKeepsWaiters(s.handshakes, s.tickets, t, g);
  }

  lemma StageKeepsWaiters(hs: seq<Handshake>, ts: seq<Ticket>, t: Id, g: Stage)
    requires WaitersInvited(hs, ts) && t < |ts| && !g.Taken?
    ensures WaitersInvited(hs, ts[t := ts[t].(stage := g)])
  {
    WaitersKept(hs, ts, hs, ts[t := ts[t].(stage := g)]);
  }

  /** The channel that an expected connection finds is the one of its own handshake. */
  lemma FindsItsChannel(s: State, t: Id)
    requires Inv(s) && t < |s.tickets| && Undelivered(s.tickets[t])
    ensures var u := s.tickets[t];
            u.token in Pending(s, u.kind) && Pending(s, u.kind)[u.token] == u.origin
  {
    assert TicketFits(s.handshakes, s.tickets[t]);
    assert OwnsChannel(s.handshakes[s.tickets[t].origin]);
  }

  /** What arrives at a waiting handshake is the connection it waits for. */
  lemma ArrivesInItsRole(s: State, h: Id, t: Id, role: Role)
    requires Inv(s) && InPhase(s, h, if role == First then WaitFirst else WaitSecond) && InStage(s, t, Blocked(h))
    ensures s.tickets[t].origin == h && s.tickets[t].role == role
  {
    assert TicketFits(s.handshakes, s.tickets[t]);
  }

  lemma TakenFits(s: State, h: Id, t: Id, role: Role, u: Id)
    requires Inv(s) && InPhase(s, h, if role == First then WaitFirst else WaitSecond) && InStage(s, t, Blocked(h))
    requires u < |s.tickets|
    ensures TicketFits(Take(s, h, t, role).handshakes, Take(s, h, t, role).tickets[u])
  {
    assert TicketFits(s.handshakes, s.tickets[u]);
    ArrivesInItsRole(s, h, t, role);
    if u != t && s.tickets[u].origin == h {
      assert s.tickets[u].role != role;
    }
  }

  lemma TakenIsOwned(s: State, h: Id, t: Id, role: Role)
    requires Inv(s) && InPhase(s, h, if role == First then WaitFirst else WaitSecond) && InStage(s, t, Blocked(h))
    ensures var s' := Take(s, h, t, role);
            SocketsOwned(s'.handshakes, s'.tickets)
  {
    var s' := Take(s, h, t, role);
    ArrivesInItsRole(s, h, t, role);
    forall g | 0 <= g < |s.handshakes|
      ensures SocketsFit(s'.handshakes[g])
      ensures Owns(s'.tickets, g, First, s'.handshakes[g].firstSocket)
      ensures Owns(s'.tickets, g, Second, s'.handshakes[g].secondSocket)
    {
      assert Owns(s.tickets, g, First, s.handshakes[g].firstSocket);
      assert Owns(s.tickets, g, Second, s.handshakes[g].secondSocket);
    }
  }

  lemma TakeKeepsInv(s: State, h: Id, t: Id, role: Role)
    requires Inv(s) && InPhase(s, h, if role == First then WaitFirst else WaitSecond) && InStage(s, t, Blocked(h))
    ensures Inv(Take(s, h, t, role))
  {
    var s' := Take(s, h, t, role);
    ChannelsKept(s.handshakes, h, s'.handshakes[h], Browser, s.pendingBrowsers);
    ChannelsKept(s.handshakes, h, s'.handshakes[h], Copy, s.pendingCopies);
    forall u | 0 <= u < |s.tickets| ensures TicketFits(s'.handshakes, s'.tickets[u]) {
      TakenFits(s, h, t, role, u);
    }
    TakenIsOwned(s, h, t, role);
    ArrivesInItsRole(s, h, t, role);
    TakeKeepsWaiters(s, h, t, role);
  }

  lemma TakeKeepsWaiters(s: State, h: Id, t: Id, role: Role)
    requires WaitersInvited(s.handshakes, s.tickets) && h < |s.handshakes|
    requires t < |s.tickets| && s.tickets[t].origin == h
    ensures WaitersInvited(Take(s, h, t, role).handshakes, Take(s, h, t, role).tickets)
  {
    var s' := Take(s, h, t, role);
    assert RoleAwaited(s'.handshakes[h].phase) == None;
    WaitersKept(s.handshakes, s.tickets, s'.handshakes, s'.tickets);
  }

  lemma FinishKeepsTickets(s: State, h: Id)
    requires Inv(s) && InPhase(s, h, GotSecond)
    ensures TicketsFit(SetPhase(s, h, Paired).handshakes, s.tickets)
  {
    var s' := SetPhase(s, h, Paired);
    forall t | 0 <= t < |s.tickets| && s.tickets[t].origin == h
      ensures TicketFits(s'.handshakes, s.tickets[t])
    {
      assert TicketFits(s.handshakes, s.tickets[t]);
    }
    TicketsKept(s.handshakes, s.tickets, h, s'.handshakes[h]);
  }

  lemma FinishKeepsChannels(s: State, h: Id)
    requires Inv(s) && InPhase(s, h, GotSecond)
    ensures var s' := Step(s, Finish(h));
      && ChannelsFit(s'.handshakes, Browser, s'.pendingBrowsers)
      && ChannelsFit(s'.handshakes, Copy, s'.pendingCopies)
  {
    var s' := SetPhase(s, h, Paired);
    ChannelsKept(s.handshakes, h, s'.handshakes[h], Copy, s.pendingCopies);
    if s.handshakes[h].kind == Browser {
      ChannelRemoved(s.handshakes, h, s'.handshakes[h], Browser, s.pendingBrowsers);
    } else {
      ChannelsKept(s.handshakes, h, s'.handshakes[h], Browser, s.pendingBrowsers);
    }
  }

  lemma FinishKeepsWaiters(s: State, h: Id)
    requires WaitersInvited(s.handshakes, s.tickets) && h < |s.handshakes|
    ensures WaitersInvited(SetPhase(s, h, Paired).handshakes, s.tickets)
  {
    WaitersKept(s.handshakes, s.tickets, SetPhase(s, h, Paired).handshakes, s.tickets);
  }

  lemma FinishKeepsInv(s: State, h: Id)
    requires Inv(s) && InPhase(s, h, GotSecond)
    ensures Inv(Step(s, Finish(h)))
  {
    FinishKeepsTickets(s, h);
    SocketsKept(s.handshakes, s.tickets, h, Paired, s.tickets);
    FinishKeepsChannels(s, h);
    FinishKeepsWaiters(s, h);
    assert Step(s, Finish(h)).handshakes == SetPhase(s, h, Paired).handshakes;
    assert Step(s, Finish(h)).tickets == s.tickets;
  }

  lemma StepKeepsInv(s: State, e: Event)
    requires Inv(s) && Enabled(s, e)
    ensures Inv(Step(s, e))
  {
    match e
    case Spawn(kind, first, second, token) => SpawnKeepsInv(s, kind, first, second, token);
    case InviteFirst(h) => InviteKeepsInv(s, h, First);
    case InviteSecond(h) => InviteKeepsInv(s, h, Second);
    case Abandon(h) => AbandonKeepsInv(s, h);
    case Connect(t) => StageKeepsInv(s, t, Connected);
    case Lose(t) => StageKeepsInv(s, t, Dead);
    case Arrive(t) =>
      FindsItsChannel(s, t);
      StageKeepsInv(s, t, Blocked(s.tickets[t].origin));
    case TakeFirst(h, t) => TakeKeepsInv(s, h, t, First);
    case TakeSecond(h, t) => TakeKeepsInv(s, h, t, Second);
    case Finish(h) => FinishKeepsInv(s, h);
  }

  lemma {:induction false} RunKeepsInv(s: State, events: seq<Event>, s': State)
    requires Inv(s) && Run(s, events, s')
    ensures Inv(s')
    decreases |events|
  {
    if events != [] {
      StepKeepsInv(s, events[0]);
      RunKeepsInv(Step(s, events[0]), events[1..], s');
    }
  }

  lemma ReachableInv(s: State)
    requires Reachable(s)
    ensures Inv(s)
  {
    var events :| Run(INIT, events, s);
    InitInv();
    RunKeepsInv(INIT, events, s);
  }

  // ---- The maps as the server holds them ----

  /** The token of a ticket leads to the channel of the handshake that has sent it. */
  predicate Finds(s: State, t: Ticket) {
    GetSocketsChan(Pending(s, t.kind), t.token) == Some(t.origin)
  }

  lemma AllFindTheirChannels(s: State)
    requires Inv(s)
    ensures forall t | 0 <= t < |s.tickets| && Undelivered(s.tickets[t]) :: Finds(s, s.tickets[t])
  {
    forall t | 0 <= t < |s.tickets| && Undelivered(s.tickets[t]) ensures Finds(s, s.tickets[t]) {
      FindsItsChannel(s, t);
    }
  }

  /** The server's two maps, with the handshakes and invitations as they are. Its methods are the places where the maps are
      read or changed, each on behalf of one handshake or one arriving connection. */
  class SocketsChannels {
    var pendingBrowsers: map<Token, Id>
    var pendingCopies: map<Token, Id>
    var handshakes: seq<Handshake>
    var tickets: seq<Ticket>

    ghost function Now(): State
      reads this
    {
      State(handshakes, tickets, pendingBrowsers, pendingCopies)
    }

    ghost predicate Valid()
      reads this
    {
      Inv(Now())
    }

    constructor ()
      ensures Valid() && Now() == INIT
    {
      pendingBrowsers, pendingCopies, handshakes, tickets := map[], map[], [], [];
    }

    /** A new handshake asks for a channel. It throws exactly if the token is that of a handshake of its kind whose channel
        is still there. */
    method New(kind: Kind, first: ClientId, second: ClientId, token: Token) returns (made: bool)
      requires Valid()
      modifies this
      ensures Valid() && Now() == Step(old(Now()), Spawn(kind, first, second, token))
      ensures made <==> forall h | 0 <= h < |old(handshakes)| ::
                          var other := old(handshakes)[h];
                          other.kind == kind && OwnsChannel(other) ==> other.token != token
      ensures handshakes == old(handshakes)
                            + [Handshake(kind, first, second, token, if made then Opened else Refused, None, None)]
    {
      SpawnKeepsInv(Now(), kind, first, second, token);
      made := token !in if kind == Browser then pendingBrowsers else pendingCopies;
      if made && kind == Browser {
        pendingBrowsers := pendingBrowsers[token := |handshakes|];
      } else if made {
        pendingCopies := pendingCopies[token := |handshakes|];
      }
      handshakes := handshakes + [Handshake(kind, first, second, token, if made then Opened else Refused, None, None)];
    }

    /** A connection with a token looks for its channel. The lookup never throws, and what it finds is the channel of the
        handshake that has sent the token. */
    method Get(t: Id) returns (chan: Id)
      requires Valid() && InStage(Now(), t, Connected)
      modifies this`tickets
      ensures Valid() && Now() == Step(old(Now()), Arrive(t))
      ensures chan == tickets[t].origin && tickets[t].stage == Blocked(chan)
    {
      FindsItsChannel(Now(), t);
      StageKeepsInv(Now(), t, Blocked(tickets[t].origin));
      var token := tickets[t].token;
      chan := if tickets[t].kind == Browser then pendingBrowsers[token] else pendingCopies[token];
      tickets := tickets[t := tickets[t].(stage := Blocked(chan))];
    }

    /** A browser handshake that has both sockets removes its channel; a copy keeps it. No other channel is touched, and
        no connection on its way loses the one it looks for. */
    method Delete(h: Id)
      requires Valid() && InPhase(Now(), h, GotSecond)
      modifies this
      ensures Valid() && Now() == Step(old(Now()), Finish(h))
      ensures forall t | 0 <= t < |tickets| && Undelivered(tickets[t]) ::
                Finds(Now(), tickets[t])
    {
      FinishKeepsInv(Now(), h);
      AllFindTheirChannels(Step(Now(), Finish(h)));
      var done := handshakes[h];
      if done.kind == Browser {
        pendingBrowsers := pendingBrowsers - {done.token};
      }
      handshakes := handshakes[h := done.(phase := Paired)];
    }
  }

  // ---- What the server relies on, in every state of every run ----

  /** The first socket a handshake takes is the one the host, or the source, of this handshake opened for it, the second
      the one the reader, or the destination, opened for it. They are two sockets, even if both are one client's, and no
      other handshake has them. */
  lemma RolesAreRight(s: State, h: Id)
    requires Reachable(s) && h < |s.handshakes|
    ensures var hs := s.handshakes[h];
      && (hs.firstSocket.Some? ==>
            && hs.firstSocket.value < |s.tickets|
            && var t := s.tickets[hs.firstSocket.value];
               t.client == hs.first && t.role == First && t.origin == h)
      && (hs.secondSocket.Some? ==>
            && hs.secondSocket.value < |s.tickets|
            && var t := s.tickets[hs.secondSocket.value];
               t.client == hs.second && t.role == Second && t.origin == h)
      && (hs.phase == GotSecond || hs.phase == Paired ==>
            hs.firstSocket.Some? && hs.secondSocket.Some? && hs.firstSocket != hs.secondSocket)
    ensures forall g | 0 <= g < |s.handshakes| && g != h ::
      var a, b := s.handshakes[h], s.handshakes[g];
      && (a.firstSocket.Some? ==> a.firstSocket != b.firstSocket && a.firstSocket != b.secondSocket)
      && (a.secondSocket.Some? ==> a.secondSocket != b.firstSocket && a.secondSocket != b.secondSocket)
  {
    ReachableInv(s);
    var hs := s.handshakes[h];
    if hs.firstSocket.Some? {
      assert TicketFits(s.handshakes, s.tickets[hs.firstSocket.value]);
    }
    if hs.secondSocket.Some? {
      assert TicketFits(s.handshakes, s.tickets[hs.secondSocket.value]);
    }
    forall g | 0 <= g < |s.handshakes| && g != h
      ensures var b := s.handshakes[g];
        && (hs.firstSocket.Some? ==> hs.firstSocket != b.firstSocket && hs.firstSocket != b.secondSocket)
        && (hs.secondSocket.Some? ==> hs.secondSocket != b.firstSocket && hs.secondSocket != b.secondSocket)
    {
      assert Owns(s.tickets, g, First, s.handshakes[g].firstSocket);
      assert Owns(s.tickets, g, Second, s.handshakes[g].secondSocket);
    }
  }

  /** A handshake that waits for a client has invited that client, with its own kind and token, and the invitation, or the
      connection made for it, is on its way or was lost. */
  lemma WaitsForItsInvitation(s: State, h: Id)
    requires Reachable(s) && h < |s.handshakes| && RoleAwaited(s.handshakes[h].phase).Some?
    ensures exists t ::
      && 0 <= t < |s.tickets|
      && var hs, u := s.handshakes[h], s.tickets[t];
         && u.origin == h && u.kind == hs.kind && u.token == hs.token
         && u.client == (if hs.phase == WaitFirst then hs.first else hs.second)
         && (Undelivered(u) || u.stage == Dead)
  {
    ReachableInv(s);
    var role := RoleAwaited(s.handshakes[h].phase).value;
    assert Awaited(s.tickets, h, role);
    var t :| 0 <= t < |s.tickets| && s.tickets[t].origin == h && s.tickets[t].role == role
             && !s.tickets[t].stage.Taken?;
    assert TicketFits(s.handshakes, s.tickets[t]);
  }

  /** As long as an invitation or the connection made for it is on its way, its token is pending and leads to its own
      handshake. So a connection never fails to find its channel, and what is on its way with equal tokens belongs
      together. */
  lemma TokenOutlivesInvitation(s: State, t: Id)
    requires Reachable(s) && t < |s.tickets| && Undelivered(s.tickets[t])
    ensures var u := s.tickets[t];
            GetSocketsChan(Pending(s, u.kind), u.token) == Some(u.origin)
    ensures forall v | 0 <= v < |s.tickets| && Undelivered(s.tickets[v]) ::
      s.tickets[v].kind == s.tickets[t].kind && s.tickets[v].token == s.tickets[t].token ==>
        s.tickets[v].origin == s.tickets[t].origin
  {
    ReachableInv(s);
    FindsItsChannel(s, t);
    forall v | 0 <= v < |s.tickets| && Undelivered(s.tickets[v])
      ensures s.tickets[v].kind == s.tickets[t].kind && s.tickets[v].token == s.tickets[t].token ==>
        s.tickets[v].origin == s.tickets[t].origin
    {
      FindsItsChannel(s, v);
    }
  }

  /** When a channel is removed, nothing is on its way to it and nobody waits in it: a connection for a later handshake
      that draws the same token cannot be mixed up with one for this handshake. */
  lemma RemovedChannelIsIdle(s: State, h: Id)
    requires Reachable(s) && Enabled(s, Finish(h))
    ensures forall t | 0 <= t < |s.tickets| && Undelivered(s.tickets[t]) ::
      && s.tickets[t].origin != h
      && s.tickets[t].stage != Blocked(h)
      && !(s.tickets[t].kind == s.handshakes[h].kind && s.tickets[t].token == s.handshakes[h].token)
  {
    ReachableInv(s);
    forall t | 0 <= t < |s.tickets| && Undelivered(s.tickets[t])
      ensures s.tickets[t].origin != h && s.tickets[t].stage != Blocked(h)
      ensures !(s.tickets[t].kind == s.handshakes[h].kind && s.tickets[t].token == s.handshakes[h].token)
    {
      assert TicketFits(s.handshakes, s.tickets[t]);
      FindsItsChannel(s, t);
      assert OwnsChannel(s.handshakes[h]);
    }
  }

  /** The token of a copy is never used again: of all copies ever started, two that got a channel have two tokens. */
  lemma CopyTokensAreUnique(s: State, g: Id, h: Id)
    requires Reachable(s) && g < h < |s.handshakes|
    requires s.handshakes[g].kind == Copy && s.handshakes[h].kind == Copy
    requires s.handshakes[g].phase != Refused && s.handshakes[h].phase != Refused
    ensures s.handshakes[g].token != s.handshakes[h].token
  {
    ReachableInv(s);
    assert OwnsChannel(s.handshakes[g]) && OwnsChannel(s.handshakes[h]);
  }

  /** The token of a browser is free again once its clients are paired, and only then: a handshake that is abandoned after
      it has made its channel keeps the token for the lifetime of the server. */
  lemma AbandoningKeepsToken(s: State, h: Id, events: seq<Event>, s': State)
    requires Reachable(s) && Enabled(s, Abandon(h)) && Run(Step(s, Abandon(h)), events, s')
    ensures InPhase(s', h, Abandoned)
    ensures NewSocketsChan(Pending(s', s.handshakes[h].kind), s.handshakes[h].token, |s'.handshakes|) == None
  {
    ReachableStep(s, Abandon(h));
    AbandonedKeepsToken(Step(s, Abandon(h)), h, events, s');
  }

  lemma {:induction false} AbandonedKeepsToken(s: State, h: Id, events: seq<Event>, s': State)
    requires Reachable(s) && InPhase(s, h, Abandoned) && Run(s, events, s')
    ensures InPhase(s', h, Abandoned) && s'.handshakes[h] == s.handshakes[h]
    ensures NewSocketsChan(Pending(s', s.handshakes[h].kind), s.handshakes[h].token, |s'.handshakes|) == None
    decreases |events|
  {
    ReachableInv(s);
    assert OwnsChannel(s.handshakes[h]);
    if events != [] {
      ReachableStep(s, events[0]);
      AbandonedStays(s, h, events[0]);
      AbandonedKeepsToken(Step(s, events[0]), h, events[1..], s');
    }
  }

  lemma AbandonedStays(s: State, h: Id, e: Event)
    requires InPhase(s, h, Abandoned) && Enabled(s, e)
    ensures h < |Step(s, e).handshakes| && Step(s, e).handshakes[h] == s.handshakes[h]
  {
  }

  lemma ReachableStep(s: State, e: Event)
    requires Reachable(s) && Enabled(s, e)
    ensures Reachable(Step(s, e))
  {
    var events :| Run(INIT, events, s);
    RunOneMore(INIT, events, s, e);
  }

  lemma {:induction false} RunOneMore(s: State, events: seq<Event>, s': State, e: Event)
    requires Run(s, events, s') && Enabled(s', e)
    ensures Run(s, events + [e], Step(s', e))
    decreases |events|
  {
    if events == [] {
      assert (events + [e])[1..] == [];
    } else {
      RunOneMore(Step(s, events[0]), events[1..], s', e);
      assert (events + [e])[1..] == events[1..] + [e];
    }
  }

  lemma PairedBrowserFreesToken(s: State, h: Id)
    requires Reachable(s) && Enabled(s, Finish(h)) && s.handshakes[h].kind == Browser
    ensures s.handshakes[h].token in s.pendingBrowsers
    ensures NewSocketsChan(Step(s, Finish(h)).pendingBrowsers, s.handshakes[h].token, |s.handshakes|).Some?
    ensures forall token | token in s.pendingBrowsers && token != s.handshakes[h].token ::
              GetSocketsChan(Step(s, Finish(h)).pendingBrowsers, token) == GetSocketsChan(s.pendingBrowsers, token)
  {
    ReachableInv(s);
    assert OwnsChannel(s.handshakes[h]);
  }

  // ---- What can still happen ----

  /** Some run leads from one state to the other. */
  ghost predicate Leads(s: State, s': State) {
    exists events :: Run(s, events, s')
  }

  lemma LeadsNowhere(s: State)
    ensures Leads(s, s)
  {
    assert Run(s, [], s);
  }

  lemma LeadsOneMore(s: State, s': State, e: Event)
    requires Leads(s, s') && Enabled(s', e)
    ensures Leads(s, Step(s', e))
  {
    var events :| Run(s, events, s');
    RunOneMore(s, events, s', e);
  }

  lemma {:induction false} RunConcat(s: State, a: seq<Event>, s': State, b: seq<Event>, s'': State)
    requires Run(s, a, s') && Run(s', b, s'')
    ensures Run(s, a + b, s'')
    decreases |b|
  {
    if b == [] {
      assert a + b == a;
    } else {
      RunOneMore(s, a, s', b[0]);
      RunConcat(s, a + [b[0]], Step(s', b[0]), b[1..], s'');
      assert (a + [b[0]]) + b[1..] == a + b;
    }
  }

  lemma LeadsThen(s: State, s': State, s'': State)
    requires Leads(s, s') && Leads(s', s'')
    ensures Leads(s, s'')
  {
    var a :| Run(s, a, s');
    var b :| Run(s', b, s'');
    RunConcat(s, a, s', b, s'');
  }

  /** Nothing was lost that handshake `h` needs, and nobody has given it up. */
  ghost predicate Alive(s: State, h: Id) {
    && Inv(s) && h < |s.handshakes|
    && NotGivenUp(s.handshakes[h]) && NothingLost(s.tickets, h)
  }

  predicate NotGivenUp(h: Handshake) {
    h.phase != Refused && h.phase != Abandoned
  }

  ghost predicate NothingLost(ts: seq<Ticket>, h: Id) {
    forall t | 0 <= t < |ts| && ts[t].origin == h :: ts[t].stage != Dead
  }

  function Rank(p: Phase): nat {
    match p
    case Opened => 5
    case WaitFirst => 4
    case GotFirst => 3
    case WaitSecond => 2
    case GotSecond => 1
    case _ => 0
  }

  /** The same two clients, meeting for the same purpose. */
  predicate SameMeeting(a: Handshake, b: Handshake) {
    a.kind == b.kind && a.first == b.first && a.second == b.second && a.token == b.token
  }

  /** A step that loses nothing and gives up nothing. */
  predicate Harmless(e: Event) {
    e.Connect? || e.Arrive? || e.TakeFirst? || e.TakeSecond? || e.InviteFirst? || e.InviteSecond? || e.Finish?
  }

  lemma StepKeepsMeeting(s: State, h: Id, e: Event)
    requires h < |s.handshakes| && NotGivenUp(s.handshakes[h]) && Enabled(s, e) && Harmless(e)
    ensures h < |Step(s, e).handshakes| && NotGivenUp(Step(s, e).handshakes[h])
    ensures SameMeeting(s.handshakes[h], Step(s, e).handshakes[h])
  {
  }

  lemma StageLosesNothing(ts: seq<Ticket>, h: Id, t: Id, g: Stage)
    requires NothingLost(ts, h) && t < |ts| && g != Dead
    ensures NothingLost(ts[t := ts[t].(stage := g)], h)
  {
  }

  lemma InviteLosesNothing(s: State, h: Id, g: Id, role: Role)
    requires NothingLost(s.tickets, h) && g < |s.handshakes|
    ensures NothingLost(Invite(s, g, role).tickets, h)
  {
  }

  lemma StepLosesNothing(s: State, h: Id, e: Event)
    requires Inv(s) && NothingLost(s.tickets, h) && Enabled(s, e) && Harmless(e)
    ensures NothingLost(Step(s, e).tickets, h)
  {
    match e
    case Connect(t) => StageLosesNothing(s.tickets, h, t, Connected);
    case Arrive(t) =>
      FindsItsChannel(s, t);
      StageLosesNothing(s.tickets, h, t, Blocked(s.tickets[t].origin));
    case TakeFirst(g, t) => StageLosesNothing(s.tickets, h, t, Taken(g));
    case TakeSecond(g, t) => StageLosesNothing(s.tickets, h, t, Taken(g));
    case InviteFirst(g) => InviteLosesNothing(s, h, g, First);
    case InviteSecond(g) => InviteLosesNothing(s, h, g, Second);
    case _ =>
  }

  lemma StepKeepsAlive(s: State, h: Id, e: Event)
    requires Alive(s, h) && Enabled(s, e) && Harmless(e)
    ensures Alive(Step(s, e), h) && SameMeeting(s.handshakes[h], Step(s, e).handshakes[h])
  {
    StepKeepsInv(s, e);
    StepKeepsMeeting(s, h, e);
    StepLosesNothing(s, h, e);
  }

  /** An invitation that is on its way can get to the channel of its handshake. */
  lemma CanArrive(s: State, h: Id, t: Id) returns (s': State)
    requires Alive(s, h) && t < |s.tickets| && s.tickets[t].origin == h && Undelivered(s.tickets[t])
    ensures Leads(s, s') && Alive(s', h) && s'.handshakes == s.handshakes
    ensures InStage(s', t, Blocked(h)) && s'.tickets[t].role == s.tickets[t].role
  {
    s' := s;
    LeadsNowhere(s);
    if s.tickets[t].stage == Queued {
      StepKeepsAlive(s, h, Connect(t));
      LeadsOneMore(s, s', Connect(t));
      s' := Step(s', Connect(t));
    }
    if s'.tickets[t].stage == Connected {
      FindsItsChannel(s', t);
      StepKeepsAlive(s', h, Arrive(t));
      LeadsOneMore(s, s', Arrive(t));
      s' := Step(s', Arrive(t));
    }
    assert TicketFits(s'.handshakes, s'.tickets[t]);
  }

  /** And then the handshake, which waits for it, can take it. */
  lemma CanBeTaken(s: State, h: Id, t: Id) returns (s': State)
    requires Alive(s, h) && t < |s.tickets| && s.tickets[t].origin == h && Undelivered(s.tickets[t])
    ensures Leads(s, s') && Alive(s', h) && SameMeeting(s.handshakes[h], s'.handshakes[h])
    ensures Rank(s'.handshakes[h].phase) < Rank(s.handshakes[h].phase)
  {
    assert TicketFits(s.handshakes, s.tickets[t]);
    var there := CanArrive(s, h, t);
    var take := if s.tickets[t].role == First then TakeFirst(h, t) else TakeSecond(h, t);
    StepKeepsAlive(there, h, take);
    LeadsOneMore(s, there, take);
    s' := Step(there, take);
  }

  /** When it is the handshake's turn, it can get on by itself. */
  lemma CanAct(s: State, h: Id) returns (s': State)
    requires Alive(s, h) && s.handshakes[h].phase != Paired && RoleAwaited(s.handshakes[h].phase) == None
    ensures Leads(s, s') && Alive(s', h) && SameMeeting(s.handshakes[h], s'.handshakes[h])
    ensures Rank(s'.handshakes[h].phase) < Rank(s.handshakes[h].phase)
  {
    var p := s.handshakes[h].phase;
    var e := if p == Opened then InviteFirst(h) else if p == GotFirst then InviteSecond(h) else Finish(h);
    LeadsNowhere(s);
    StepKeepsAlive(s, h, e);
    LeadsOneMore(s, s, e);
    s' := Step(s, e);
  }

  lemma CanGetOn(s: State, h: Id) returns (s': State)
    requires Alive(s, h) && s.handshakes[h].phase != Paired
    ensures Leads(s, s') && Alive(s', h) && SameMeeting(s.handshakes[h], s'.handshakes[h])
    ensures Rank(s'.handshakes[h].phase) < Rank(s.handshakes[h].phase)
  {
    var p := s.handshakes[h].phase;
    if RoleAwaited(p).Some? {
      assert Awaited(s.tickets, h, RoleAwaited(p).value);
      var t :| 0 <= t < |s.tickets| && s.tickets[t].origin == h && !s.tickets[t].stage.Taken?;
      s' := CanBeTaken(s, h, t);
    } else {
      s' := CanAct(s, h);
    }
  }

  lemma {:induction false} AliveCanBePaired(s: State, h: Id) returns (s': State)
    requires Alive(s, h)
    ensures Leads(s, s') && Alive(s', h) && SameMeeting(s.handshakes[h], s'.handshakes[h])
    ensures InPhase(s', h, Paired)
    decreases Rank(s.handshakes[h].phase)
  {
    s' := s;
    LeadsNowhere(s);
    if s.handshakes[h].phase != Paired {
      var next := CanGetOn(s, h);
      s' := AliveCanBePaired(next, h);
      LeadsThen(s, next, s');
    }
  }

  /** From every reachable state, a handshake that was not refused or abandoned, and for which nothing was lost, can still
      be paired, with the sockets its first and its second client opened for it: so both are told and both get through. */
  lemma CanBePaired(s: State, h: Id)
    requires Reachable(s) && h < |s.handshakes|
    requires NotGivenUp(s.handshakes[h]) && NothingLost(s.tickets, h)
    ensures exists s' :: Leads(s, s') && IsPaired(s', h, s.handshakes[h].first, s.handshakes[h].second)
  {
    ReachableInv(s);
    var s' := AliveCanBePaired(s, h);
    var events :| Run(s, events, s');
    ReachableRun(s, events, s');
    RolesAreRight(s', h);
    assert IsPaired(s', h, s.handshakes[h].first, s.handshakes[h].second);
  }

  /** The handshake has two sockets, which the two clients opened for it. */
  ghost predicate IsPaired(s: State, h: Id, first: ClientId, second: ClientId) {
    && InPhase(s, h, Paired)
    && var hs := s.handshakes[h];
       && hs.firstSocket.Some? && hs.secondSocket.Some? && hs.firstSocket != hs.secondSocket
       && hs.firstSocket.value < |s.tickets| && hs.secondSocket.value < |s.tickets|
       && s.tickets[hs.firstSocket.value].client == first && s.tickets[hs.firstSocket.value].origin == h
       && s.tickets[hs.secondSocket.value].client == second && s.tickets[hs.secondSocket.value].origin == h
  }

  lemma ReachableRun(s: State, events: seq<Event>, s': State)
    requires Reachable(s) && Run(s, events, s')
    ensures Reachable(s')
  {
    var before :| Run(INIT, before, s);
    RunConcat(INIT, before, s, events, s');
  }

  /** A new handshake is opened, unless a handshake of its kind whose channel is still there has its token; so it can be
      paired. */
  lemma CanBeOpened(s: State, kind: Kind, first: ClientId, second: ClientId, token: Token)
    requires Reachable(s)
    requires forall h | 0 <= h < |s.handshakes| && s.handshakes[h].kind == kind && OwnsChannel(s.handshakes[h]) ::
               s.handshakes[h].token != token
    ensures Reachable(Step(s, Spawn(kind, first, second, token)))
    ensures exists s' ::
              && Leads(Step(s, Spawn(kind, first, second, token)), s')
              && IsPaired(s', |s.handshakes|, first, second)
  {
    ReachableInv(s);
    ReachableStep(s, Spawn(kind, first, second, token));
    var opened' := Step(s, Spawn(kind, first, second, token));
    ReachableInv(opened');
    forall t | 0 <= t < |opened'.tickets| ensures opened'.tickets[t].origin != |s.handshakes| {
      assert TicketFits(s.handshakes, s.tickets[t]);
    }
    CanBePaired(opened', |s.handshakes|);
  }

  /** What is lost stays lost: no handshake ever gets its socket. */
  lemma LosingIsFinal(s: State, t: Id, events: seq<Event>, s': State)
    requires Enabled(s, Lose(t)) && Run(Step(s, Lose(t)), events, s')
    ensures InStage(s', t, Dead)
  {
    LostIsLost(Step(s, Lose(t)), t, events, s');
  }

  lemma {:induction false} LostIsLost(s: State, t: Id, events: seq<Event>, s': State)
    requires InStage(s, t, Dead) && Run(s, events, s')
    ensures InStage(s', t, Dead)
    decreases |events|
  {
    if events != [] {
      LostIsLost(Step(s, events[0]), t, events[1..], s');
    }
  }
}
