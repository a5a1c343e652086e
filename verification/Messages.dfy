/** The messages of the four framed directions, and how a reader cuts its stream back into messages. */
module Messages {
  import opened Wire
  import opened Serde
  import opened Sockets

  datatype Direction = ServerToClient | ClientToServer | ReaderToHost | HostToReader

  /** A tag, its payload, and the part of the payload whose presence depends on the payload itself. */
  datatype Message = Message(tag: byte, payload: Val, extra: Option<Val>)

  const METAINFO_TY := PodT(METAINFO_SIZE)
  const DENTRY_TY := PairT(StrT, METAINFO_TY)
  const PATH_DENTS_TY := PairT(StrT, OptT(VecT(DENTRY_TY)))
  const REMOTE_DENTRY_TY := PairT(U64T, StrT)
  const REMOTE_DENTRIES_TY := PairT(U64T, PairT(StrT, VecT(StrT)))
  const WATCHER_INFO_TY :=
    PairT(U64T, PairT(U64T, PairT(U64T, PairT(U64T, PairT(U64T, PairT(U64T, PairT(StrT, U64T)))))))

  const NO_PAYLOAD := PodT(0)
  const UNIT := Pod([])

  const ROLE_SOURCE: byte := 0
  const ROLE_DESTINATION: byte := 1

  const COPY_REQUEST: byte := 5

  /** The payload that follows a tag; `None` for a byte that is no tag of this direction. */
  function PayloadTy(d: Direction, tag: byte): Option<Ty> {
    match d
    case ServerToClient =>
      if tag == 0 then Some(U64T)                                   // ClientId
      else if tag == 1 then Some(StrT)                              // ClientName
      else if tag == 2 then Some(VecT(PairT(U64T, StrT)))           // ClientsList
      else if tag == 3 then Some(PairT(U64T, OptT(U64T)))           // BrowserConnected
      else if tag == 4 then Some(U64T)                              // ConnectBrowserRequest
      else if tag == COPY_REQUEST then Some(PairT(U64T, PairT(U8T, StrT)))
      else if tag == 6 then Some(OptT(WATCHER_INFO_TY))               // WatcherInfo
      else None
    case ClientToServer =>
      if tag == 0 then Some(StrT)                                   // SetName
      else if tag == 1 then Some(NO_PAYLOAD)                         // GetClientsList
      else if tag == 2 then Some(PairT(U64T, U64T))                 // ConnectBrowser
      else if tag == 3 then Some(PairT(REMOTE_DENTRIES_TY, REMOTE_DENTRY_TY)) // Copy
      else None
    case ReaderToHost =>
      if tag == 0 then Some(StrT)                                   // GetDents
      else if tag == 1 then Some(REMOTE_DENTRIES_TY)                  // Delete
      else if tag == 2 then Some(PairT(StrT, StrT))                 // Mkdir
      else None
    case HostToReader =>
      if tag == 0 then Some(PATH_DENTS_TY)                            // PathDents
      else if tag == 1 || tag == 2 then Some(StrT)                  // DeleteResponse, MkdirResponse
      else None
  }

  /** A copy request carries the list of names only for the role of the source. */
  function ExtraTy(d: Direction, tag: byte, payload: Val): Option<Ty> {
    if && d == ServerToClient && tag == COPY_REQUEST
       && payload.Pair? && payload.second.Pair? && payload.second.first == U8(ROLE_SOURCE)
    then Some(VecT(StrT))
    else None
  }

  predicate WellFormed(d: Direction, m: Message) {
    && PayloadTy(d, m.tag).Some?
    && HasType(m.payload, PayloadTy(d, m.tag).value)
    && match ExtraTy(d, m.tag, m.payload)
       case None => m.extra == None
       case Some(t) => m.extra.Some? && HasType(m.extra.value, t)
  }

  function EncodeExtra(extra: Option<Val>): bytes {
    if extra.Some? then Encode(extra.value) else []
  }

  function EncodeMessage(m: Message): bytes {
    [m.tag] + Encode(m.payload) + EncodeExtra(m.extra)
  }

  function EncodeMessages(ms: seq<Message>): bytes {
    if ms == [] then [] else EncodeMessage(ms[0]) + EncodeMessages(ms[1..])
  }

  /** Reading what follows `tag`. */
  function DecodeBody(d: Direction, tag: byte, s: bytes): (r: Option<Parsed<Message>>)
    requires PayloadTy(d, tag).Some?
    ensures r.Some? ==> |r.value.rest| <= |s|
  {
    var p :- Decode(PayloadTy(d, tag).value, s);
    match ExtraTy(d, tag, p.value)
    case None => Some(Parsed(Message(tag, p.value, None), p.rest))
    case Some(t) =>
      var q :- Decode(t, p.rest);
      Some(Parsed(Message(tag, p.value, Some(q.value)), q.rest))
  }

  /** The messages a reader gets out of a stream. A byte that is no tag is skipped; the reader stops in the middle of a
      message, when the stream ends there. */
  function DecodeMessages(d: Direction, s: bytes): seq<Message>
    decreases |s|
  {
    if s == [] then []
    else if PayloadTy(d, s[0]).None? then DecodeMessages(d, s[1..])
    else match DecodeBody(d, s[0], s[1..])
         case None => []
         case Some(p) => [p.value] + DecodeMessages(d, p.rest)
  }

  lemma BodyRoundTrip(d: Direction, m: Message, r: bytes)
    requires WellFormed(d, m)
    ensures DecodeBody(d, m.tag, Encode(m.payload) + EncodeExtra(m.extra) + r) == Some(Parsed(m, r))
  {
    var t := PayloadTy(d, m.tag).value;
    assert Encode(m.payload) + EncodeExtra(m.extra) + r == Encode(m.payload) + (EncodeExtra(m.extra) + r);
    RoundTrip(m.payload, t, EncodeExtra(m.extra) + r);
    match ExtraTy(d, m.tag, m.payload) {
      case None => assert [] + r == r;
      case Some(e) => RoundTrip(m.extra.value, e, r);
    }
  }

  /** A message at the front of the stream is the first one the reader gets, and it leaves exactly the rest. */
  lemma MessageRoundTrip(d: Direction, m: Message, r: bytes)
    requires WellFormed(d, m)
    ensures DecodeMessages(d, EncodeMessage(m) + r) == [m] + DecodeMessages(d, r)
  {
    var s := EncodeMessage(m) + r;
    assert s[0] == m.tag && s[1..] == Encode(m.payload) + EncodeExtra(m.extra) + r;
    BodyRoundTrip(d, m, r);
  }

  /** A message cut short yields nothing, not even a different message. */
  lemma CutMessageIsNotRead(d: Direction, m: Message, n: nat)
    requires WellFormed(d, m) && n < |EncodeMessage(m)|
    ensures DecodeMessages(d, EncodeMessage(m)[..n]) == []
  {
    var cut := EncodeMessage(m)[..n];
    if n > 0 {
      assert cut[0] == m.tag;
      assert cut[1..] == (Encode(m.payload) + EncodeExtra(m.extra))[..n - 1];
      CutBodyIsNotRead(d, m, n - 1);
    }
  }

  lemma CutBodyIsNotRead(d: Direction, m: Message, k: nat)
    requires WellFormed(d, m) && k < |Encode(m.payload) + EncodeExtra(m.extra)|
    ensures DecodeBody(d, m.tag, (Encode(m.payload) + EncodeExtra(m.extra))[..k]) == None
  {
    var enc := Encode(m.payload);
    var body := (enc + EncodeExtra(m.extra))[..k];
    if k < |enc| {
      assert body == enc[..k];
      CutValueIsNotRead(m.payload, PayloadTy(d, m.tag).value, k);
    } else {
      assert body == enc + EncodeExtra(m.extra)[..k - |enc|];
      CutExtraIsNotRead(d, m, k - |enc|);
    }
  }

  lemma CutExtraIsNotRead(d: Direction, m: Message, k: nat)
    requires WellFormed(d, m) && k < |EncodeExtra(m.extra)|
    ensures DecodeBody(d, m.tag, Encode(m.payload) + EncodeExtra(m.extra)[..k]) == None
  {
    RoundTrip(m.payload, PayloadTy(d, m.tag).value, EncodeExtra(m.extra)[..k]);
    CutValueIsNotRead(m.extra.value, ExtraTy(d, m.tag, m.payload).value, k);
  }

  /** Whole messages followed by a piece of one more are read as exactly the whole ones. */
  lemma {:induction false} MessagesThenCut(d: Direction, ms: seq<Message>, last: Message, n: nat)
    requires forall m | m in ms :: WellFormed(d, m)
    requires WellFormed(d, last) && n < |EncodeMessage(last)|
    ensures DecodeMessages(d, EncodeMessages(ms) + EncodeMessage(last)[..n]) == ms
  {
    var cut := EncodeMessage(last)[..n];
    if ms == [] {
      assert EncodeMessages(ms) + cut == cut;
      CutMessageIsNotRead(d, last, n);
    } else {
      Regroup(EncodeMessage(ms[0]), EncodeMessages(ms[1..]), cut);
      MessageRoundTrip(d, ms[0], EncodeMessages(ms[1..]) + cut);
      MessagesThenCut(d, ms[1..], last, n);
      assert ms == [ms[0]] + ms[1..];
    }
  }

  lemma {:induction false} MessagesRoundTrip(d: Direction, ms: seq<Message>)
    requires forall m | m in ms :: WellFormed(d, m)
    ensures DecodeMessages(d, EncodeMessages(ms)) == ms
  {
    if ms != [] {
      MessageRoundTrip(d, ms[0], EncodeMessages(ms[1..]));
      MessagesRoundTrip(d, ms[1..]);
    }
  }

  lemma {:induction false} EncodeMessagesConcat(a: seq<Message>, b: seq<Message>)
    ensures EncodeMessages(a + b) == EncodeMessages(a) + EncodeMessages(b)
  {
    if a == [] {
      assert a + b == b;
    } else {
      EncodeMessagesConcat(a[1..], b);
      assert (a + b)[0] == a[0] && (a + b)[1..] == a[1..] + b;
      Regroup(EncodeMessage(a[0]), EncodeMessages(a[1..]), EncodeMessages(b));
    }
  }

  // ---- What each producer puts in the queue ----

  function Strings(names: seq<bytes>): (items: seq<Val>)
    ensures |items| == |names|
    ensures forall i | 0 <= i < |names| :: items[i] == Str(names[i])
  {
    seq(|names|, i requires 0 <= i < |names| => Str(names[i]))
  }

  function ClientIdMessage(id: u64): (m: Message)
    ensures WellFormed(ServerToClient, m)
  {
    Message(0, U64(id), None)
  }

  function ClientNameMessage(name: bytes): (m: Message)
    requires |name| < U64_LIMIT
    ensures WellFormed(ServerToClient, m)
  {
    Message(1, Str(name), None)
  }

  function BrowserHostRequest(token: u64): (m: Message)
    ensures WellFormed(ServerToClient, m)
  {
    Message(4, U64(token), None)
  }

  function BrowserReaderRequest(clientToken: u64, serverToken: Option<u64>): (m: Message)
    ensures WellFormed(ServerToClient, m)
  {
    Message(3, Pair(U64(clientToken), if serverToken.Some? then Just(U64(serverToken.value)) else Nothing), None)
  }

  function CopySourceRequest(token: u64, path: bytes, dentries: seq<bytes>): (m: Message)
    requires |path| < U64_LIMIT && |dentries| < U64_LIMIT
    requires forall n | n in dentries :: |n| < U64_LIMIT
    ensures WellFormed(ServerToClient, m)
  {
    Message(COPY_REQUEST, Pair(U64(token), Pair(U8(ROLE_SOURCE), Str(path))), Some(Vec(Strings(dentries))))
  }

  function CopyDestinationRequest(token: u64, path: bytes): (m: Message)
    requires |path| < U64_LIMIT
    ensures WellFormed(ServerToClient, m)
  {
    Message(COPY_REQUEST, Pair(U64(token), Pair(U8(ROLE_DESTINATION), Str(path))), None)
  }

  /** Several entries of a directory of a client; one entry, or directory, of a client. */
  datatype RemoteDentries = RemoteDentries(id: u64, basedir: bytes, dentries: seq<bytes>)
  datatype RemoteDentry = RemoteDentry(id: u64, path: bytes)

  /** Whether the lengths fit in 64 bits. */
  predicate Fits(names: seq<bytes>) {
    |names| < U64_LIMIT && forall n | n in names :: |n| < U64_LIMIT
  }

  function RemoteDentriesVal(r: RemoteDentries): (v: Val)
    requires |r.basedir| < U64_LIMIT && Fits(r.dentries)
    ensures HasType(v, REMOTE_DENTRIES_TY)
  {
    Pair(U64(r.id), Pair(Str(r.basedir), Vec(Strings(r.dentries))))
  }

  function ClientsListMessage(list: seq<(u64, bytes)>): (m: Message)
    requires |list| < U64_LIMIT && forall i | 0 <= i < |list| :: |list[i].1| < U64_LIMIT
    ensures WellFormed(ServerToClient, m)
  {
    Message(2, Vec(seq(|list|, i requires 0 <= i < |list| => Pair(U64(list[i].0), Str(list[i].1)))), None)
  }

  const GET_CLIENTS_LIST := Message(1, UNIT, None)

  function SetNameMessage(name: bytes): (m: Message)
    requires |name| < U64_LIMIT
    ensures WellFormed(ClientToServer, m)
  {
    Message(0, Str(name), None)
  }

  function ConnectBrowserMessage(clientToken: u64, hostId: u64): (m: Message)
    ensures WellFormed(ClientToServer, m)
  {
    Message(2, Pair(U64(clientToken), U64(hostId)), None)
  }

  function CopyMessage(from: RemoteDentries, to: RemoteDentry): (m: Message)
    requires |from.basedir| < U64_LIMIT && Fits(from.dentries) && |to.path| < U64_LIMIT
    ensures WellFormed(ClientToServer, m)
  {
    Message(3, Pair(RemoteDentriesVal(from), Pair(U64(to.id), Str(to.path))), None)
  }

  function DeleteMessage(entries: RemoteDentries): (m: Message)
    requires |entries.basedir| < U64_LIMIT && Fits(entries.dentries)
    ensures WellFormed(ReaderToHost, m)
  {
    Message(1, RemoteDentriesVal(entries), None)
  }

  function MkdirMessage(basedir: bytes, name: bytes): (m: Message)
    requires |basedir| < U64_LIMIT && |name| < U64_LIMIT
    ensures WellFormed(ReaderToHost, m)
  {
    Message(2, Pair(Str(basedir), Str(name)), None)
  }

  /** The answer to a request for a listing: name and metadata of each entry, or nothing if there is no listing. */
  function PathDentsMessage(dir: bytes, dents: Option<seq<(bytes, bytes)>>): (m: Message)
    requires |dir| < U64_LIMIT
    requires dents.Some? ==> |dents.value| < U64_LIMIT
    requires dents.Some? ==>
               forall i | 0 <= i < |dents.value| :: |dents.value[i].0| < U64_LIMIT && |dents.value[i].1| == METAINFO_SIZE
    ensures WellFormed(HostToReader, m)
  {
    var listing := match dents
      case None => Nothing
      case Some(ds) => Just(Vec(seq(|ds|, i requires 0 <= i < |ds| => Pair(Str(ds[i].0), Pod(ds[i].1)))));
    Message(0, Pair(Str(dir), listing), None)
  }

  /** The answers to the requests to delete entries and to make a directory. */
  function ResultMessage(deleted: bool, text: bytes): (m: Message)
    requires |text| < U64_LIMIT
    ensures WellFormed(HostToReader, m)
  {
    Message(if deleted then 1 else 2, Str(text), None)
  }

  function GetDentsMessage(dir: bytes): (m: Message)
    requires |dir| < U64_LIMIT
    ensures WellFormed(ReaderToHost, m)
  {
    Message(0, Str(dir), None)
  }

  // ---- The loops at both ends ----

  /** One queued action: several writes that make up one message. */
  method SendMessage(sock: Socket, m: Message) returns (ok: bool)
    modifies sock`output
    ensures Sent(old(sock.output), EncodeMessage(m), sock.output, ok)
    ensures sock.lasts ==> ok
  {
    ghost var before := sock.output;
    ok := sock.Write([m.tag]);
    if ok {
      ghost var mid := sock.output;
      ok := Send(sock, m.payload);
      SentThen(before, [m.tag], mid, Encode(m.payload), sock.output, ok);
    } else {
      SentTooLittle(before, [m.tag], sock.output, Encode(m.payload));
    }
    if m.extra == None {
      assert EncodeMessage(m) == [m.tag] + Encode(m.payload);
    } else if ok {
      ghost var mid := sock.output;
      ok := Send(sock, m.extra.value);
      SentThen(before, [m.tag] + Encode(m.payload), mid, Encode(m.extra.value), sock.output, ok);
    } else {
      SentTooLittle(before, [m.tag] + Encode(m.payload), sock.output, Encode(m.extra.value));
    }
  }

  /** The reading loop of a connection. */
  method ReceiveMessages(sock: Socket, d: Direction) returns (ms: seq<Message>)
    modifies sock`input
    ensures ms == DecodeMessages(d, old(sock.input))
  {
    ms := [];
    ghost var all := DecodeMessages(d, sock.input);
    assert ms + all == all;
    while true
      invariant ms + DecodeMessages(d, sock.input) == all
      decreases |sock.input|
    {
      var block := sock.ReadExact(1);
      if block == None {
        assert ms + [] == ms;
        return;
      }
      var tag := block.value[0];
      if PayloadTy(d, tag).Some? {
        ghost var before := ms;
        var m := ReceiveBody(sock, d, tag);
        if m == None {
          assert ms + [] == ms;
          return;
        }
        ms := ms + [m.value];
        Regroup(before, [m.value], DecodeMessages(d, sock.input));
      }
    }
  }

  method ReceiveBody(sock: Socket, d: Direction, tag: byte) returns (r: Option<Message>)
    requires PayloadTy(d, tag).Some?
    modifies sock`input
    ensures Received(DecodeBody(d, tag, old(sock.input)), r, sock.input)
  {
    var payload :- Recv(sock, PayloadTy(d, tag).value);
    match ExtraTy(d, tag, payload)
    case None => r := Some(Message(tag, payload, None));
    case Some(t) =>
      var extra :- Recv(sock, t);
      r := Some(Message(tag, payload, Some(extra)));
  }
}
