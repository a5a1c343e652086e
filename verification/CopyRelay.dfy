/** The server's part of a copy: it forwards the stream piece by piece, follows its grammar, and reports progress. */
module CopyRelay {
  import opened Wire
  import opened Serde
  import opened Sockets
  import opened Tree

  // ---- What is forwarded ----

  datatype Head = Head(meta: Metainfo, path: bytes)

  /** What the relay makes of a stream: the files whose header it forwarded, how many of them completely, all bytes it
      forwarded, the bytes it leaves, and whether it reached the end of the copy. */
  datatype Relayed = Relayed(heads: seq<Head>, files: nat, out: bytes, rest: bytes, ok: bool)

  /** Text that was received is sent again. */
  function RelayText(s: bytes): Relayed {
    match TakeText(s)
    case None => Relayed([], 0, [], [], false)
    case Some(t) => Relayed([], 0, Size(|t.value|) + t.value, t.rest, true)
  }

  /** File contents are passed on as they come in: of a file that is cut short, everything there is. */
  function RelayContent(size: nat, s: bytes): Relayed {
    if size <= |s| then Relayed([], 0, s[..size], s[size..], true)
    else Relayed([], 0, s, [], false)
  }

  function RelayBody(m: Metainfo, s: bytes): Relayed {
    if IsReg(m) then RelayContent(SizeOf(m), s)
    else if IsLnk(m) then RelayText(s)
    else Relayed([], 0, [], s, true)
  }

  /** Metadata and path. */
  function RelayHeader(s: bytes): Relayed {
    match TakeBlock(METAINFO_SIZE, s)
    case None => Relayed([], 0, [], [], false)
    case Some(m) =>
      var path := RelayText(m.rest);
      Relayed(if path.ok then [Head(m.value, TakeText(m.rest).value.value)] else [], 0,
              m.value + path.out, path.rest, path.ok)
  }

  function RelayFile(s: bytes): Relayed {
    var header := RelayHeader(s);
    if !header.ok then header
    else
      var body := RelayBody(header.heads[0].meta, header.rest);
      Relayed(header.heads, if body.ok then 1 else 0, header.out + body.out, body.rest, body.ok)
  }

  /** Two stretches of one run. */
  function Chain(a: Relayed, b: Relayed): Relayed {
    Relayed(a.heads + b.heads, a.files + b.files, a.out + b.out, b.rest, b.ok)
  }

  function RelayFiles(n: nat, s: bytes): Relayed {
    if n == 0 then Relayed([], 0, [], s, true)
    else
      var one := RelayFile(s);
      if one.ok then Chain(one, RelayFiles(n - 1, one.rest)) else one
  }

  lemma ChainAssociates(a: Relayed, b: Relayed, c: Relayed)
    ensures Chain(Chain(a, b), c) == Chain(a, Chain(b, c))
  {
  }

  /** What is done, `i` files of `n`, and what is still to be done from `s`. */
  ghost predicate SoFar(done: Relayed, i: nat, n: nat, s: bytes, all: Relayed) {
    && i <= n && |done.heads| == i
    && Chain(done, RelayFiles(n - i, s)) == all
  }

  lemma NothingSoFar(n: nat, s: bytes)
    ensures SoFar(Relayed([], 0, [], s, true), 0, n, s, RelayFiles(n, s))
  {
    var r := RelayFiles(n, s);
    assert [] + r.heads == r.heads && [] + r.out == r.out;
  }

  lemma OneMoreFile(done: Relayed, i: nat, n: nat, s: bytes, all: Relayed)
    requires i < n && SoFar(done, i, n, s, all)
    ensures done.heads + RelayFile(s).heads <= all.heads && done.out + RelayFile(s).out <= all.out
    ensures RelayFile(s).ok ==> SoFar(Chain(done, RelayFile(s)), i + 1, n, RelayFile(s).rest, all)
    ensures !RelayFile(s).ok ==> all == Chain(done, RelayFile(s))
  {
    OneHead(s);
    OneMoreOf(done, n - i, n - (i + 1), s, all);
  }

  lemma OneMoreOf(done: Relayed, left: nat, more: nat, s: bytes, all: Relayed)
    requires left == more + 1 && Chain(done, RelayFiles(left, s)) == all
    ensures done.heads + RelayFile(s).heads <= all.heads && done.out + RelayFile(s).out <= all.out
    ensures RelayFile(s).ok ==> Chain(Chain(done, RelayFile(s)), RelayFiles(more, RelayFile(s).rest)) == all
    ensures !RelayFile(s).ok ==> all == Chain(done, RelayFile(s))
  {
    var one := RelayFile(s);
    if one.ok {
      FileThenMore(left, more, s);
      ChainAssociates(done, one, RelayFiles(more, one.rest));
      ChainExtends(Chain(done, one), RelayFiles(more, one.rest));
    }
  }

  lemma FileThenMore(n: nat, more: nat, s: bytes)
    requires n == more + 1 && RelayFile(s).ok
    ensures RelayFiles(n, s) == Chain(RelayFile(s), RelayFiles(more, RelayFile(s).rest))
  {
  }

  lemma ChainExtends(a: Relayed, b: Relayed)
    ensures a.heads <= Chain(a, b).heads && a.out <= Chain(a, b).out
  {
  }

  /** A run that reached its end. */
  ghost predicate Complete(r: Relayed, heads: seq<Head>, out: bytes, rest: bytes) {
    r.ok && r.heads == heads && r.files == |heads| && r.out == out && r.rest == rest
  }

  function RelayWord(s: bytes): Relayed {
    match TakeWord(s)
    case None => Relayed([], 0, [], [], false)
    case Some(n) => Relayed([], 0, Word(n.value), n.rest, true)
  }

  /** The number of files and the total size. */
  function RelayCounts(s: bytes): Relayed {
    var count := RelayWord(s);
    if !count.ok then count
    else
      var total := RelayWord(count.rest);
      total.(out := count.out + total.out)
  }

  /** The two numbers at the beginning of a stream. */
  function Announced(s: bytes): (u64, u64) {
    if |s| >= 16 then (FromWord(s[..8]), FromWord(s[8..][..8])) else (0, 0)
  }

  function Relay(s: bytes): Relayed {
    var counts := RelayCounts(s);
    if !counts.ok then counts
    else
      var files := RelayFiles(Announced(s).0, counts.rest);
      files.(out := counts.out + files.out)
  }

  /** Forwarding `r.out` in place of what was read from `s` changes nothing: it is a prefix of `s`, and together with
      what is left it is `s`, unless the stream ended too early. */
  ghost predicate Identity(r: Relayed, s: bytes) {
    && r.out <= s
    && (r.ok ==> r.out + r.rest == s)
  }

  /** `all` continues with `r` what began with `first`. */
  ghost predicate Continues(first: bytes, r: Relayed, all: Relayed) {
    all.out == first + r.out && all.rest == r.rest && all.ok == r.ok
  }

  lemma IdentityThen(first: bytes, mid: bytes, r: Relayed, s: bytes, all: Relayed)
    requires s == first + mid && Identity(r, mid) && Continues(first, r, all)
    ensures Identity(all, s)
  {
    assert all.out == s[..|all.out|];
    if r.ok {
      assert all.out + r.rest == first + (r.out + r.rest);
    }
  }

  /** Printing a text after it was parsed gives back its bytes. */
  lemma TextIsReprinted(s: bytes)
    requires TakeText(s).Some?
    ensures Size(|TakeText(s).value.value|) + TakeText(s).value.value + TakeText(s).value.rest == s
  {
    ParseThenPrint(StrT, s);
    assert s == s[..|s| - |TakeText(s).value.rest|] + TakeText(s).value.rest;
  }

  lemma RelayTextIsIdentity(s: bytes)
    ensures Identity(RelayText(s), s)
  {
    if TakeText(s).Some? {
      TextIsReprinted(s);
      var out := RelayText(s).out;
      assert out == s[..|out|];
    }
  }

  lemma RelayFileIsIdentity(s: bytes)
    ensures Identity(RelayFile(s), s)
  {
    var r := RelayFile(s);
    var header := RelayHeader(s);
    RelayHeaderIsIdentity(s);
    if header.ok {
      var body := RelayBody(header.heads[0].meta, header.rest);
      RelayTextIsIdentity(header.rest);
      assert Identity(body, header.rest);
      IdentityThen(header.out, header.rest, body, s, r);
    }
  }

  lemma RelayHeaderIsIdentity(s: bytes)
    ensures Identity(RelayHeader(s), s)
  {
    if |s| >= METAINFO_SIZE {
      var m, mid := s[..METAINFO_SIZE], s[METAINFO_SIZE..];
      RelayTextIsIdentity(mid);
      IdentityThen(m, mid, RelayText(mid), s, RelayHeader(s));
    }
  }

  lemma AfterFirstFile(n: nat, more: nat, s: bytes)
    requires n == more + 1 && RelayFile(s).ok
    ensures Continues(RelayFile(s).out, RelayFiles(more, RelayFile(s).rest), RelayFiles(n, s))
    ensures |RelayFiles(n, s).heads| == |RelayFile(s).heads| + |RelayFiles(more, RelayFile(s).rest).heads|
    ensures RelayFiles(n, s).files == RelayFile(s).files + RelayFiles(more, RelayFile(s).rest).files
  {
  }

  /** For every stream, whole or cut at any byte: the server sends a prefix of what it receives, and all of the copy if
      the copy is complete. */
  lemma {:induction false} RelayFilesIsIdentity(n: nat, s: bytes)
    ensures Identity(RelayFiles(n, s), s)
  {
    if n > 0 {
      var one := RelayFile(s);
      RelayFileIsIdentity(s);
      if one.ok {
        var more: nat := n - 1;
        RelayFilesIsIdentity(more, one.rest);
        AfterFirstFile(n, more, s);
        IdentityThen(one.out, one.rest, RelayFiles(more, one.rest), s, RelayFiles(n, s));
      }
    }
  }

  lemma RelayWordIsIdentity(s: bytes)
    ensures Identity(RelayWord(s), s)
  {
    if |s| >= 8 {
      assert s == Word(FromWord(s[..8])) + s[8..];
    }
  }

  lemma RelayCountsIsIdentity(s: bytes)
    ensures Identity(RelayCounts(s), s)
  {
    var count := RelayWord(s);
    RelayWordIsIdentity(s);
    if count.ok {
      RelayWordIsIdentity(count.rest);
      IdentityThen(count.out, count.rest, RelayWord(count.rest), s, RelayCounts(s));
    }
  }

  lemma RelayIsIdentity(s: bytes)
    ensures Identity(Relay(s), s)
  {
    var counts := RelayCounts(s);
    RelayCountsIsIdentity(s);
    if counts.ok {
      RelayFilesIsIdentity(Announced(s).0, counts.rest);
      IdentityThen(counts.out, counts.rest, RelayFiles(Announced(s).0, counts.rest), s, Relay(s));
    }
  }

  lemma OneHead(s: bytes)
    ensures RelayFile(s).files <= |RelayFile(s).heads| <= 1
    ensures RelayFile(s).ok <==> RelayFile(s).files == 1
  {
  }

  /** The copy is complete exactly when every announced file was forwarded. */
  lemma {:induction false} CompleteIffAllFiles(n: nat, s: bytes)
    ensures RelayFiles(n, s).files <= |RelayFiles(n, s).heads| <= n
    ensures RelayFiles(n, s).ok <==> RelayFiles(n, s).files == n
  {
    if n > 0 {
      OneHead(s);
      if RelayFile(s).ok {
        var more: nat := n - 1;
        AfterFirstFile(n, more, s);
        CompleteIffAllFiles(more, RelayFile(s).rest);
      }
    }
  }

  // ---- What the server forwards of a stream that is cut ----

  /** The copy stops in the content of a regular file. */
  predicate InContent(r: Relayed) {
    !r.ok && |r.heads| > r.files && IsReg(r.heads[|r.heads| - 1].meta)
  }

  /** The beginning of a piece that is received before it is sent again: of metadata, or of a text or number. */
  predicate IsUnfinished(left: bytes) {
    left == [] || |left| < METAINFO_SIZE || TakeText(left) == None
  }

  /** Nothing is held back but an unfinished piece, and nothing at all of the content of a file. */
  ghost predicate HoldsBackLittle(r: Relayed, s: bytes) {
    !r.ok ==>
      && r.out <= s && IsUnfinished(s[|r.out|..])
      && (InContent(r) ==> r.out == s)
  }

  lemma FileHoldsBackLittle(s: bytes)
    ensures HoldsBackLittle(RelayFile(s), s)
  {
    var header := RelayHeader(s);
    RelayFileIsIdentity(s);
    RelayHeaderIsIdentity(s);
    if header.ok {
      var m, body := header.heads[0].meta, RelayBody(header.heads[0].meta, header.rest);
      assert header.out + header.rest == s;
      if !body.ok {
        assert RelayFile(s).out == header.out + body.out;
        if IsReg(m) {
          assert body.out == header.rest;
        } else {
          assert body.out == [] && s[|header.out + []|..] == header.rest;
        }
      }
    } else if |s| >= METAINFO_SIZE {
      assert RelayFile(s).out == s[..METAINFO_SIZE] + [];
    }
  }

  lemma HoldsBackAfter(first: bytes, mid: bytes, r: Relayed, s: bytes, all: Relayed)
    requires s == first + mid && HoldsBackLittle(r, mid) && all.out == first + r.out && all.ok == r.ok
    requires InContent(all) ==> InContent(r)
    ensures HoldsBackLittle(all, s)
  {
    if !r.ok {
      assert all.out <= s by {
        assert mid == r.out + mid[|r.out|..];
        assert s == all.out + mid[|r.out|..];
      }
      assert s[|all.out|..] == mid[|r.out|..];
    }
  }

  lemma StopsInTheRest(n: nat, more: nat, s: bytes)
    requires n == more + 1 && RelayFile(s).ok
    ensures InContent(RelayFiles(n, s)) ==> InContent(RelayFiles(more, RelayFile(s).rest))
  {
    FileThenMore(n, more, s);
    OneHead(s);
    StopsInSecond(RelayFile(s), RelayFiles(more, RelayFile(s).rest));
  }

  lemma StopsInSecond(a: Relayed, b: Relayed)
    requires |a.heads| <= a.files
    ensures InContent(Chain(a, b)) ==> InContent(b)
  {
    if b.heads != [] {
      assert (a.heads + b.heads)[|a.heads| + |b.heads| - 1] == b.heads[|b.heads| - 1];
    }
  }

  /** For every stream, whole or cut at any byte: what the server has received and not forwarded when it stops is an
      unfinished piece; of the content of a file it forwards every byte it receives. */
  lemma {:induction false} RelayFilesHoldBackLittle(n: nat, s: bytes)
    ensures HoldsBackLittle(RelayFiles(n, s), s)
  {
    if n > 0 {
      var one := RelayFile(s);
      RelayFileIsIdentity(s);
      FileHoldsBackLittle(s);
      if one.ok {
        var more: nat := n - 1;
        RelayFilesHoldBackLittle(more, one.rest);
        AfterFirstFile(n, more, s);
        StopsInTheRest(n, more, s);
        HoldsBackAfter(one.out, one.rest, RelayFiles(more, one.rest), s, RelayFiles(n, s));
      }
    }
  }

  lemma RelayHoldsBackLittle(s: bytes)
    ensures HoldsBackLittle(Relay(s), s)
  {
    var counts := RelayCounts(s);
    RelayCountsIsIdentity(s);
    if counts.ok {
      RelayFilesHoldBackLittle(Announced(s).0, counts.rest);
      HoldsBackAfter(counts.out, counts.rest, RelayFiles(Announced(s).0, counts.rest), s, Relay(s));
    } else {
      RelayWordIsIdentity(s);
      assert |s| < 16;
      assert s[|counts.out|..] == [] || |s[|counts.out|..]| < METAINFO_SIZE;
    }
  }
}
