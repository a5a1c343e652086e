/** A connected stream socket, and `serde` as the sequenced reads and writes it performs on one. */
module Sockets {
  import opened Wire
  import opened Serde

  /** The size of the buffers file contents go through, in sender, server and receiver. */
  const CHUNK := 0x10_0000

  /** `after` is `before` followed by `data`, all of it exactly if `ok`, less than that if the connection broke meanwhile. */
  ghost predicate Sent(before: bytes, data: bytes, after: bytes, ok: bool) {
    && before <= after <= before + data
    && (ok <==> after == before + data)
  }

  lemma SentThen(before: bytes, a: bytes, mid: bytes, b: bytes, after: bytes, ok: bool)
    requires Sent(before, a, mid, true) && Sent(mid, b, after, ok)
    ensures Sent(before, a + b, after, ok)
  {
    assert before + (a + b) == mid + b;
  }

  lemma SentTooLittle(before: bytes, a: bytes, after: bytes, b: bytes)
    requires Sent(before, a, after, false)
    ensures Sent(before, a + b, after, false)
  {
    assert before + (a + b) == (before + a) + b;
    assert |after| < |before + a|;
  }

  /** `out` was written, and if `complete` that was all there was to do; a failed write leaves out some of it. */
  ghost predicate Forwarded(before: bytes, out: bytes, complete: bool, after: bytes, ok: bool) {
    && before <= after <= before + out
    && (ok <==> complete && after == before + out)
  }

  lemma ForwardedThen(before: bytes, first: bytes, mid: bytes, out: bytes, complete: bool, after: bytes, ok: bool,
                      all: bytes)
    requires Sent(before, first, mid, true) && Forwarded(mid, out, complete, after, ok) && all == first + out
    ensures Forwarded(before, all, complete, after, ok)
    ensures before + all == mid + out
  {
    assert before + all == mid + out;
  }

  lemma ForwardedTooLittle(before: bytes, first: bytes, after: bytes, rest: bytes, complete: bool, all: bytes)
    requires Sent(before, first, after, false) && all == first + rest
    ensures Forwarded(before, all, complete, after, false)
  {
    SentTooLittle(before, first, after, rest);
  }

  /** What stops in the piece `one`, after `done`. */
  lemma ForwardedPart(before: bytes, done: bytes, mid: bytes, one: bytes, oneComplete: bool, after: bytes,
                      all: bytes, complete: bool)
    requires mid == before + done && Forwarded(mid, one, oneComplete, after, false)
    requires done + one <= all
    requires !oneComplete ==> !complete && all == done + one
    ensures Forwarded(before, all, complete, after, false)
    ensures !oneComplete && after == mid + one ==> after == before + all
  {
    assert before + (done + one) == mid + one;
    assert before + all == mid + one + all[|done + one|..];
    if oneComplete {
      assert |after| < |mid + one|;
    }
  }

  class Socket {
    /** What the peer sends and nobody has read yet, up to the end of the stream. */
    var input: bytes
    /** What was written here and reaches the peer. */
    var output: bytes
    /** Whether the peer stays until everything was written. */
    const lasts: bool

    constructor (input: bytes, lasts: bool)
      ensures this.input == input && output == [] && this.lasts == lasts
    {
      this.input, output, this.lasts := input, [], lasts;
    }

    /** A read of exactly `n` bytes; it throws when the stream ends first. */
    method ReadExact(n: nat) returns (r: Option<bytes>)
      modifies `input
      ensures r == if n <= |old(input)| then Some(old(input)[..n]) else None
      ensures input == if n <= |old(input)| then old(input)[n..] else []
    {
      if n <= |input| {
        r := Some(input[..n]);
        input := input[n..];
      } else {
        r := None;
        input := [];
      }
    }

    /** A read of at least one and at most `n` bytes: whatever has arrived by now. It throws at the end of the stream. */
    method ReadSome(n: nat) returns (r: Option<bytes>)
      requires n > 0
      modifies `input
      ensures old(input) == [] ==> r == None && input == []
      ensures old(input) != [] ==> r.Some? && 1 <= |r.value| <= n && old(input) == r.value + input
    {
      if input == [] {
        return None;
      }
      var k :| 1 <= k <= n && k <= |input|;
      r := Some(input[..k]);
      input := input[k..];
    }

    /** A write of all of `data`; when the peer goes away it throws after any part of it. */
    method Write(data: bytes) returns (ok: bool)
      modifies `output
      ensures Sent(old(output), data, output, ok)
      ensures lasts ==> ok
    {
      var k :| 0 <= k <= |data| && (lasts ==> k == |data|);
      output := output + data[..k];
      ok := k == |data|;
    }
  }

  /** The `send` overloads. */
  method Send(sock: Socket, v: Val) returns (ok: bool)
    modifies sock`output
    ensures Sent(old(sock.output), Encode(v), sock.output, ok)
    ensures sock.lasts ==> ok
    decreases v
  {
    ghost var before := sock.output;
    match v
    case U8(b) => ok := sock.Write([b]);
    case U64(n) => ok := sock.Write(Word(n));
    case Pod(block) => ok := sock.Write(block);
    case Str(text) =>
      ok := sock.Write(Size(|text|));
      if ok {
        ghost var mid := sock.output;
        ok := sock.Write(text);
        SentThen(before, Size(|text|), mid, text, sock.output, ok);
      } else {
        SentTooLittle(before, Size(|text|), sock.output, text);
      }
    case Pair(a, b) =>
      ok := Send(sock, a);
      if ok {
        ghost var mid := sock.output;
        ok := Send(sock, b);
        SentThen(before, Encode(a), mid, Encode(b), sock.output, ok);
      } else {
        SentTooLittle(before, Encode(a), sock.output, Encode(b));
      }
    case Vec(items) =>
      ok := sock.Write(Size(|items|));
      ghost var sent := Size(|items|);
      var i := 0;
      while ok && i < |items|
        invariant 0 <= i <= |items|
        invariant Sent(before, sent, sock.output, ok) && (sock.lasts ==> ok)
        invariant sent + EncodeAll(items[i..]) == Encode(v)
        decreases |items| - i, ok
      {
        ghost var mid := sock.output;
        ok := Send(sock, items[i]);
        SentThen(before, sent, mid, Encode(items[i]), sock.output, ok);
        assert items[i..][1..] == items[i + 1..];
        assert sent + EncodeAll(items[i..]) == sent + Encode(items[i]) + EncodeAll(items[i + 1..]);
        sent := sent + Encode(items[i]);
        i := i + 1;
      }
      if ok {
        assert sent + [] == sent;
      } else {
        SentTooLittle(before, sent, sock.output, EncodeAll(items[i..]));
      }
    case Nothing => ok := sock.Write([0]);
    case Just(it) =>
      ok := sock.Write([1]);
      if ok {
        ghost var mid := sock.output;
        ok := Send(sock, it);
        SentThen(before, [1], mid, Encode(it), sock.output, ok);
      } else {
        SentTooLittle(before, [1], sock.output, Encode(it));
      }
  }

  /** What a reader of `p` returns and leaves on the stream: a read that meets the end of the stream empties it. */
  ghost predicate Received<T>(p: Option<Parsed<T>>, r: Option<T>, left: bytes) {
    match p
    case None => r == None && left == []
    case Some(q) => r == Some(q.value) && left == q.rest
  }

  method RecvWord(sock: Socket) returns (r: Option<u64>)
    modifies sock`input
    ensures Received(TakeWord(old(sock.input)), r, sock.input)
  {
    var block :- sock.ReadExact(8);
    r := Some(FromWord(block));
  }

  method RecvText(sock: Socket) returns (r: Option<bytes>)
    modifies sock`input
    ensures Received(TakeText(old(sock.input)), r, sock.input)
  {
    var n :- RecvWord(sock);
    r := sock.ReadExact(n);
  }

  /** The `recv` overloads. */
  method Recv(sock: Socket, t: Ty) returns (r: Option<Val>)
    modifies sock`input
    ensures Received(Decode(t, old(sock.input)), r, sock.input)
    decreases t
  {
    match t
    case U8T =>
      var block :- sock.ReadExact(1);
      r := Some(U8(block[0]));
    case U64T =>
      var n :- RecvWord(sock);
      r := Some(U64(n));
    case PodT(size) =>
      var block :- sock.ReadExact(size);
      r := Some(Pod(block));
    case StrT =>
      var text :- RecvText(sock);
      r := Some(Str(text));
    case PairT(a, b) =>
      var x :- Recv(sock, a);
      var y :- Recv(sock, b);
      r := Some(Pair(x, y));
    case VecT(e) =>
      var n :- RecvWord(sock);
      ghost var all := DecodeN(e, n, sock.input);
      var items: seq<Val> := [];
      var i := 0;
      assert all.Some? ==> items + all.value.value == all.value.value;
      while i < n
        invariant 0 <= i <= n && |items| == i
        invariant all == match DecodeN(e, n - i, sock.input)
                         case None => None
                         case Some(q) => Some(Parsed(items + q.value, q.rest))
      {
        ghost var before := items;
        ghost var s := sock.input;
        var x :- Recv(sock, e);
        items := items + [x];
        i := i + 1;
        ghost var tail := DecodeN(e, n - i, sock.input);
        if tail.Some? {
          assert items + tail.value.value == before + ([x] + tail.value.value);
        }
      }
      assert items + [] == items;
      r := Some(Vec(items));
    case OptT(e) =>
      var flag :- sock.ReadExact(1);
      if flag[0] != 0 {
        var x :- Recv(sock, e);
        r := Some(Just(x));
      } else {
        r := Some(Nothing);
      }
  }
}
