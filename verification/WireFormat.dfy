/** What is where in the bytes on the wire: numbers, values, metadata of files, and every message. */
module WireFormat {
  import opened Wire
  import opened Serde
  import opened Messages
  import opened Tree
  import opened CopyProgress

  // ---- Values ----

  /** The least significant byte of a number is the first. */
  lemma {:induction false} ByteOfNumber(n: nat, width: nat, i: nat)
    requires i < width
    ensures LittleEndian(n, width)[i] == n / Limit(i) % 256
  {
    if i > 0 {
      ByteOfNumber(n / 256, width - 1, i - 1);
      DivideTwice(n, Limit(i - 1));
    }
  }

  lemma DivideTwice(n: nat, b: nat)
    requires b > 0
    ensures n / 256 / b == n / (256 * b)
  {
    var q, r := n / 256, n % 256;
    var q', r' := q / b, q % b;
    assert n == 256 * q + r && q == b * q' + r';
    assert 256 * q == (256 * b) * q' + 256 * r';
    QuotientIs(n, 256 * b, q', 256 * r' + r);
  }

  lemma QuotientIs(n: nat, d: nat, q: nat, r: nat)
    requires n == d * q + r && r < d
    ensures n / d == q
  {
    var a := n / d;
    assert a < q ==> d * (a + 1) <= d * q;
    assert a > q ==> d * (q + 1) <= d * a;
  }

  /** A text is its length in eight bytes and then its characters. */
  function Text(s: bytes): bytes {
    Word8(|s|) + s
  }

  /** The eight bytes of a number, spelled out. */
  function Word8(n: nat): (s: bytes)
    ensures |s| == 8 && forall i | 0 <= i < 8 :: s[i] == n / Limit(i) % 256
  {
    forall i | 0 <= i < 8 ensures LittleEndian(n, 8)[i] == n / Limit(i) % 256 {
      ByteOfNumber(n, 8, i);
    }
    Size(n)
  }

  function Texts(names: seq<bytes>): bytes {
    if names == [] then [] else Text(names[0]) + Texts(names[1..])
  }

  /** Numbers and texts are as above; the components of a pair follow each other, the first one first; a vector is its
      length and then its elements in order; an optional is a byte 0 or 1, and in the second case the value. */
  lemma ValuesOnWire(n: u64, text: bytes, a: Val, b: Val, items: seq<Val>)
    ensures Encode(U64(n)) == Word8(n)
    ensures Encode(Str(text)) == Text(text)
    ensures Encode(Pair(a, b)) == Encode(a) + Encode(b)
    ensures Encode(Vec(items)) == Word8(|items|) + EncodeAll(items)
    ensures items != [] ==> EncodeAll(items) == Encode(items[0]) + EncodeAll(items[1..])
    ensures Encode(Nothing) == [0] && Encode(Just(a)) == [1] + Encode(a)
  {
  }

  lemma {:induction false} StringsOnWire(names: seq<bytes>)
    ensures Encode(Vec(Strings(names))) == Word8(|names|) + Texts(names)
    ensures EncodeAll(Strings(names)) == Texts(names)
  {
    if names != [] {
      StringsOnWire(names[1..]);
      assert Strings(names)[1..] == Strings(names[1..]);
      assert EncodeAll(Strings(names)) == Encode(Str(names[0])) + EncodeAll(Strings(names[1..]));
    }
  }

  // ---- Metadata ----

  /** Metadata is the size in eight bytes, user and group in four each, the mode in two, and then padding and times. Size
      and type are read from there: the four highest bits of the mode tell a regular file, a directory and a link. */
  lemma MetainfoLayout(size: u64, uid: nat, gid: nat, mode: nat, times: bytes)
    requires mode < 0x1_0000 && |times| == 38
    ensures var m := Word(size) + (LittleEndian(uid, 4) + (LittleEndian(gid, 4) + (LittleEndian(mode, 2) + times)));
      && |m| == METAINFO_SIZE && SizeOf(m) == size
      && (IsReg(m) <==> mode - mode % 0x1000 == 0x8000)
      && (IsDir(m) <==> mode - mode % 0x1000 == 0x4000)
      && (IsLnk(m) <==> mode - mode % 0x1000 == 0xA000)
  {
    var m := Word(size) + (LittleEndian(uid, 4) + (LittleEndian(gid, 4) + (LittleEndian(mode, 2) + times)));
    assert m[..8] == Word(size);
    WordReadsBack(size);
    ByteOfNumber(mode, 2, 0);
    ByteOfNumber(mode, 2, 1);
    assert Limit(0) == 1 && Limit(1) == 256;
    assert m[16] == LittleEndian(mode, 2)[0] && m[17] == LittleEndian(mode, 2)[1];
    assert m[16] as int + 256 * m[17] as int == mode;
  }

  // ---- Messages ----

  lemma PlainOnWire(tag: byte, payload: Val)
    ensures EncodeMessage(Message(tag, payload, None)) == [tag] + Encode(payload)
  {
    assert [tag] + Encode(payload) + [] == [tag] + Encode(payload);
  }

  /** From the server: the client's id; its name; the token for a host; for a reader the token it sent itself, and, if a
      host is connected, the token for its connection. */
  lemma ServerMessagesOnWire(id: u64, name: bytes, token: u64, clientToken: u64, serverToken: Option<u64>)
    requires |name| < U64_LIMIT
    ensures EncodeMessage(ClientIdMessage(id)) == [0] + Word8(id)
    ensures EncodeMessage(ClientNameMessage(name)) == [1] + Text(name)
    ensures EncodeMessage(BrowserHostRequest(token)) == [4] + Word8(token)
    ensures EncodeMessage(BrowserReaderRequest(clientToken, serverToken))
         == [3] + (Word8(clientToken) + if serverToken.Some? then [1] + Word8(serverToken.value) else [0])
  {
    PlainOnWire(0, U64(id));
    PlainOnWire(1, Str(name));
    PlainOnWire(4, U64(token));
    var token' := if serverToken.Some? then Just(U64(serverToken.value)) else Nothing;
    assert Encode(token') == if serverToken.Some? then [1] + Word8(serverToken.value) else [0];
    PlainOnWire(3, Pair(U64(clientToken), token'));
  }

  lemma InvitationOnWire(token: u64, role: byte, path: bytes)
    ensures Encode(Pair(U64(token), Pair(U8(role), Str(path)))) == Word8(token) + ([role] + Text(path))
  {
    assert Encode(Pair(U8(role), Str(path))) == [role] + Text(path);
  }

  /** The invitations to a copy: token, role, path, and for the source the names there. */
  lemma CopyInvitationsOnWire(token: u64, path: bytes, names: seq<bytes>)
    requires |path| < U64_LIMIT && Fits(names)
    ensures EncodeMessage(CopySourceRequest(token, path, names))
         == [5] + (Word8(token) + ([0] + Text(path))) + (Word8(|names|) + Texts(names))
    ensures EncodeMessage(CopyDestinationRequest(token, path)) == [5] + (Word8(token) + ([1] + Text(path)))
  {
    InvitationOnWire(token, ROLE_SOURCE, path);
    InvitationOnWire(token, ROLE_DESTINATION, path);
    StringsOnWire(names);
    PlainOnWire(5, CopyDestinationRequest(token, path).payload);
    var source := CopySourceRequest(token, path, names);
    assert EncodeExtra(source.extra) == Word8(|names|) + Texts(names);
    assert EncodeMessage(source) == [5] + Encode(source.payload) + EncodeExtra(source.extra);
  }

  function Clients(list: seq<(u64, bytes)>): bytes {
    if list == [] then [] else (Word8(list[0].0) + Text(list[0].1)) + Clients(list[1..])
  }

  /** The list of clients: their number, and id and name of each. */
  lemma ClientsListOnWire(list: seq<(u64, bytes)>)
    requires |list| < U64_LIMIT && forall i | 0 <= i < |list| :: |list[i].1| < U64_LIMIT
    ensures EncodeMessage(ClientsListMessage(list)) == [2] + (Word8(|list|) + Clients(list))
  {
    PlainOnWire(2, ClientsListMessage(list).payload);
    ClientsEncoded(list, ClientsListMessage(list).payload.items);
  }

  lemma {:induction false} ClientsEncoded(list: seq<(u64, bytes)>, items: seq<Val>)
    requires |items| == |list|
    requires forall i | 0 <= i < |list| :: items[i] == Pair(U64(list[i].0), Str(list[i].1))
    ensures EncodeAll(items) == Clients(list)
  {
    if list != [] {
      ClientsEncoded(list[1..], items[1..]);
      assert Encode(items[0]) == Word8(list[0].0) + Text(list[0].1);
    }
  }

  /** Several entries of a client's directory: the client's id, the directory, and the names. */
  function Entries(r: RemoteDentries): bytes {
    Word8(r.id) + (Text(r.basedir) + (Word8(|r.dentries|) + Texts(r.dentries)))
  }

  lemma EntriesEncoded(r: RemoteDentries)
    requires |r.basedir| < U64_LIMIT && Fits(r.dentries)
    ensures Encode(RemoteDentriesVal(r)) == Entries(r)
  {
    StringsOnWire(r.dentries);
    var rest := Pair(Str(r.basedir), Vec(Strings(r.dentries)));
    assert Encode(rest) == Text(r.basedir) + (Word8(|r.dentries|) + Texts(r.dentries));
  }

  /** From a client: a new name; the request to connect to a host, with the client's own token first; and the request for a
      copy, the source first. */
  lemma ClientMessagesOnWire(name: bytes, token: u64, hostId: u64, from: RemoteDentries, to: RemoteDentry)
    requires |name| < U64_LIMIT && |from.basedir| < U64_LIMIT && Fits(from.dentries) && |to.path| < U64_LIMIT
    ensures EncodeMessage(SetNameMessage(name)) == [0] + Text(name)
    ensures EncodeMessage(GET_CLIENTS_LIST) == [1]
    ensures EncodeMessage(ConnectBrowserMessage(token, hostId)) == [2] + (Word8(token) + Word8(hostId))
    ensures EncodeMessage(CopyMessage(from, to)) == [3] + (Entries(from) + (Word8(to.id) + Text(to.path)))
  {
    EntriesEncoded(from);
    PlainOnWire(0, Str(name));
    PlainOnWire(1, UNIT);
    PlainOnWire(2, Pair(U64(token), U64(hostId)));
    PlainOnWire(3, CopyMessage(from, to).payload);
    assert Encode(Pair(U64(to.id), Str(to.path))) == Word8(to.id) + Text(to.path);
  }

  /** From a reader: the directory to list; the entries to delete; where to make a directory, and its name. */
  lemma ReaderMessagesOnWire(dir: bytes, entries: RemoteDentries, name: bytes)
    requires |dir| < U64_LIMIT && |entries.basedir| < U64_LIMIT && Fits(entries.dentries) && |name| < U64_LIMIT
    ensures EncodeMessage(GetDentsMessage(dir)) == [0] + Text(dir)
    ensures EncodeMessage(DeleteMessage(entries)) == [1] + Entries(entries)
    ensures EncodeMessage(MkdirMessage(dir, name)) == [2] + (Text(dir) + Text(name))
  {
    EntriesEncoded(entries);
    PlainOnWire(0, Str(dir));
    PlainOnWire(1, RemoteDentriesVal(entries));
    PlainOnWire(2, Pair(Str(dir), Str(name)));
  }

  function Dents(ds: seq<(bytes, bytes)>): bytes {
    if ds == [] then [] else (Text(ds[0].0) + ds[0].1) + Dents(ds[1..])
  }

  lemma {:induction false} DentsEncoded(ds: seq<(bytes, bytes)>, items: seq<Val>)
    requires |items| == |ds| && forall i | 0 <= i < |ds| :: items[i] == Pair(Str(ds[i].0), Pod(ds[i].1))
    ensures EncodeAll(items) == Dents(ds)
  {
    if ds != [] {
      DentsEncoded(ds[1..], items[1..]);
      assert Encode(items[0]) == Text(ds[0].0) + ds[0].1;
    }
  }

  /** From a host: the directory, whether there is a listing of it, and then the number of entries, with name and metadata
      of each; and the results of the other requests. */
  lemma HostMessagesOnWire(dir: bytes, ds: seq<(bytes, bytes)>, text: bytes)
    requires |dir| < U64_LIMIT && |ds| < U64_LIMIT && |text| < U64_LIMIT
    requires forall i | 0 <= i < |ds| :: |ds[i].0| < U64_LIMIT && |ds[i].1| == METAINFO_SIZE
    ensures EncodeMessage(PathDentsMessage(dir, None)) == [0] + (Text(dir) + [0])
    ensures EncodeMessage(PathDentsMessage(dir, Some(ds)))
         == [0] + (Text(dir) + ([1] + (Word8(|ds|) + Dents(ds))))
    ensures EncodeMessage(ResultMessage(true, text)) == [1] + Text(text)
    ensures EncodeMessage(ResultMessage(false, text)) == [2] + Text(text)
  {
    var listing := PathDentsMessage(dir, Some(ds)).payload.second;
    PlainOnWire(0, Pair(Str(dir), Nothing));
    PlainOnWire(0, Pair(Str(dir), listing));
    DentsEncoded(ds, listing.it.items);
    assert Encode(listing) == [1] + (Word8(|ds|) + Dents(ds));
    PlainOnWire(1, Str(text));
    PlainOnWire(2, Str(text));
  }

  /** A report: a byte that tells failure, or progress, which is then told in this order. */
  lemma ReportOnWire(info: WatcherInfo)
    requires |info.curFile| < U64_LIMIT
    ensures EncodeMessage(ReportMessage(None)) == [6] + [0]
    ensures EncodeMessage(ReportMessage(Some(info)))
         == [6] + ([1] + (Word8(info.filesAll) + (Word8(info.filesCompleted) + (Word8(info.totalSize)
              + (Word8(info.totalProgress) + (Word8(info.curSize) + (Word8(info.curProgress)
              + (Text(info.curFile) + Word8(info.speed)))))))))
  {
    PlainOnWire(6, Nothing);
    PlainOnWire(6, Just(WatcherInfoVal(info)));
    var last := Pair(Str(info.curFile), U64(info.speed));
    var six := Pair(U64(info.curProgress), last);
    var five := Pair(U64(info.curSize), six);
    var four := Pair(U64(info.totalProgress), five);
    var three := Pair(U64(info.totalSize), four);
    var two := Pair(U64(info.filesCompleted), three);
    assert WatcherInfoVal(info) == Pair(U64(info.filesAll), two);
    assert Encode(last) == Text(info.curFile) + Word8(info.speed);
    assert Encode(six) == Word8(info.curProgress) + Encode(last);
    assert Encode(five) == Word8(info.curSize) + Encode(six);
    assert Encode(four) == Word8(info.totalProgress) + Encode(five);
    assert Encode(three) == Word8(info.totalSize) + Encode(four);
    assert Encode(two) == Word8(info.filesCompleted) + Encode(three);
    assert Encode(WatcherInfoVal(info)) == Word8(info.filesAll) + Encode(two);
    assert Encode(Just(WatcherInfoVal(info))) == [1] + Encode(WatcherInfoVal(info));
  }
}
