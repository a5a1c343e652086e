/** The sending end of a copy: collecting metadata and writing the stream. */
module CopySender {
  import opened Wire
  import opened Serde
  import opened Sockets
  import opened Paths
  import opened Tree

  // ---- Reading one file ----

  /** The progress after one more round: every read fills the buffer as long as the file lasts, whatever is still
      wanted. */
  function NextProgress(length: nat, progress: nat): nat {
    Min(progress + CHUNK, length)
  }

  function ProgressAfter(length: nat, rounds: nat): nat {
    if rounds == 0 then 0 else NextProgress(length, ProgressAfter(length, rounds - 1))
  }

  /** The loop for a file of `length` bytes of which `size` are wanted ends after so many rounds, and not earlier. */
  ghost predicate EndsAfter(length: nat, size: nat, rounds: nat) {
    && ProgressAfter(length, rounds) >= size
    && forall j: nat | j < rounds :: ProgressAfter(length, j) < size
  }

  /** The number of bytes sent in all, if `progress` are sent already. */
  function ReadUpTo(length: nat, size: nat, progress: nat): (n: nat)
    requires size <= length && progress <= length
    ensures progress <= n <= length
    decreases length - progress
  {
    if progress >= size then progress else ReadUpTo(length, size, NextProgress(length, progress))
  }

  lemma {:induction false} ProgressIs(length: nat, rounds: nat)
    ensures ProgressAfter(length, rounds) == Min(rounds * CHUNK, length)
  {
    if rounds > 0 {
      ProgressIs(length, rounds - 1);
    }
  }

  /** The loop ends, and after how many rounds, if and only if the file has at least the announced size: on a file that has
      become shorter it goes on for ever. */
  lemma LoopEndsIff(length: nat, size: nat)
    ensures (exists rounds: nat :: EndsAfter(length, size, rounds)) <==> size <= length
    ensures size <= length ==> EndsAfter(length, size, (size + CHUNK - 1) / CHUNK)
  {
    var last := (size + CHUNK - 1) / CHUNK;
    forall rounds: nat | EndsAfter(length, size, rounds) ensures size <= length {
      ProgressIs(length, rounds);
    }
    if size <= length {
      ProgressIs(length, last);
      RoundedUp(size);
      forall j: nat | j < last ensures ProgressAfter(length, j) < size {
        ProgressIs(length, j);
        assert j * CHUNK + CHUNK <= last * CHUNK;
      }
      assert EndsAfter(length, size, last);
    }
  }

  /** Until then it has read on from where it was. */
  lemma {:induction false} ReadsOn(length: nat, size: nat, rounds: nat)
    requires size <= length && forall j: nat | j < rounds :: ProgressAfter(length, j) < size
    ensures ProgressAfter(length, rounds) <= length
    ensures ReadUpTo(length, size, 0) == ReadUpTo(length, size, ProgressAfter(length, rounds))
  {
    if rounds > 0 {
      ReadsOn(length, size, rounds - 1);
      assert ProgressAfter(length, rounds - 1) < size;
    }
  }

  /** Of a file that has at least the announced size, exactly that many bytes are sent if and only if it has not grown or
      the announced size is a multiple of the buffer size; otherwise more is sent than was announced. */
  lemma SendsAnnouncedSizeIff(length: nat, size: nat)
    requires size <= length
    ensures ReadUpTo(length, size, 0) >= size
    ensures ReadUpTo(length, size, 0) == size <==> (length == size || size % CHUNK == 0)
  {
    var last := (size + CHUNK - 1) / CHUNK;
    LoopEndsIff(length, size);
    ReadsOn(length, size, last);
    ProgressIs(length, last);
    assert ReadUpTo(length, size, 0) == Min(last * CHUNK, length);
    RoundedUp(size);
  }

  lemma RoundedUp(size: nat)
    ensures var up := (size + CHUNK - 1) / CHUNK * CHUNK; size <= up < size + CHUNK && (up == size <==> size % CHUNK == 0)
  {
  }

  /** What is sent of a file. A file that has become too short is sent as a whole, and the sender never gets further. */
  function SentContent(content: bytes, size: nat): bytes {
    if size <= |content| then content[..ReadUpTo(|content|, size, 0)] else content
  }

  /** These are the whole blocks that it takes to reach the announced size, or all there is. */
  lemma SentContentIs(content: bytes, size: nat)
    ensures SentContent(content, size) == content[..Min((size + CHUNK - 1) / CHUNK * CHUNK, |content|)]
  {
    var last := (size + CHUNK - 1) / CHUNK;
    RoundedUp(size);
    if size <= |content| {
      LoopEndsIff(|content|, size);
      ReadsOn(|content|, size, last);
      ProgressIs(|content|, last);
    }
  }

  /** The sender gets past the file only if the file is long enough, and the connection lasts. */
  method SendContent(sock: Socket, content: bytes, size: nat) returns (ok: bool)
    modifies sock`output
    ensures Forwarded(old(sock.output), SentContent(content, size), size <= |content|, sock.output, ok)
    ensures sock.lasts ==> sock.output == old(sock.output) + SentContent(content, size)
  {
    ghost var before := sock.output;
    ghost var end := |SentContent(content, size)|;
    var progress := 0;
    while progress < size
      invariant progress <= end <= |content|
      invariant size <= |content| ==> ReadUpTo(|content|, size, progress) == end
      invariant sock.output == before + content[..progress]
      decreases |content| - progress
    {
      if progress == |content| {
        // Every further round reads and writes nothing: the coroutine stays here.
        assert content[..progress] == content;
        return false;
      }
      ghost var mid := sock.output;
      var next := Min(progress + CHUNK, |content|);
      ok := sock.Write(content[progress..next]);
      OneMoreBlock(content, progress, next, end);
      if !ok {
        SentThen(before, content[..progress], mid, content[progress..next], sock.output, false);
        ForwardedTooLittle(before, content[..next], sock.output, content[next..end], size <= |content|, content[..end]);
        return;
      }
      progress := next;
    }
    ok := true;
  }

  lemma OneMoreBlock(content: bytes, progress: nat, next: nat, end: nat)
    requires progress <= next <= end <= |content|
    ensures content[..progress] + content[progress..next] == content[..next]
    ensures content[..next] + content[next..end] == content[..end]
  {
  }

  // ---- The stream ----

  /** One file on the wire: metadata, path relative to the base, what its type adds, and whether the sender gets past
      it. */
  datatype Record = Record(meta: Metainfo, path: bytes, body: bytes, ends: bool)

  function EncodeRecord(r: Record): bytes {
    r.meta + (Size(|r.path|) + r.path) + r.body
  }

  /** What is sent for a list: up to the first file, if any, that the sender does not get past. */
  function EncodeRecords(rs: seq<Record>): bytes {
    if rs == [] then []
    else EncodeRecord(rs[0]) + if rs[0].ends then EncodeRecords(rs[1..]) else []
  }

  predicate AllEnd(rs: seq<Record>) {
    forall i | 0 <= i < |rs| :: rs[i].ends
  }

  /** The sum of the sizes of regular files, in the 64-bit arithmetic of the sender. */
  function TotalSize(rs: seq<Record>): u64 {
    if rs == [] then 0
    else (RegularSize(rs[0].meta) + TotalSize(rs[1..])) % U64_LIMIT
  }

  /** One round of the loop over the list, in which the sender gets past the file. */
  lemma SentOneMore(sent: bytes, rs: seq<Record>, i: nat, all: bytes)
    requires i < |rs| && rs[i].ends && sent + EncodeRecords(rs[i..]) == all
    ensures sent + EncodeRecord(rs[i]) + EncodeRecords(rs[i + 1..]) == all
  {
    assert rs[i..][0] == rs[i] && rs[i..][1..] == rs[i + 1..];
    Regroup(sent, EncodeRecord(rs[i]), EncodeRecords(rs[i + 1..]));
  }

  /** The last round of the loop, in which it does not. */
  lemma SentNoMore(before: bytes, sent: bytes, mid: bytes, rs: seq<Record>, i: nat, after: bytes, all: bytes)
    requires i < |rs| && sent + EncodeRecords(rs[i..]) == all && mid == before + sent
    requires Forwarded(mid, EncodeRecord(rs[i]), rs[i].ends, after, false)
    ensures Forwarded(before, all, AllEnd(rs), after, false)
    ensures !rs[i].ends && after == mid + EncodeRecord(rs[i]) ==> after == before + all
  {
    var r := EncodeRecord(rs[i]);
    var rest := if rs[i].ends then EncodeRecords(rs[i + 1..]) else [];
    assert rs[i..][0] == rs[i] && rs[i..][1..] == rs[i + 1..];
    assert EncodeRecords(rs[i..]) == r + rest;
    Regroup(sent, r, rest);
    ForwardedPart(before, sent, mid, r, rs[i].ends, after, all, AllEnd(rs));
  }

  /** `total` is the sum up to `i`. */
  ghost predicate SummedUpTo(total: u64, rs: seq<Record>, i: nat) {
    i <= |rs| && (total + TotalSize(rs[i..])) % U64_LIMIT == TotalSize(rs)
  }

  lemma SummedNone(rs: seq<Record>)
    ensures SummedUpTo(0, rs, 0)
  {
    assert rs[0..] == rs;
  }

  lemma SummedAll(total: u64, rs: seq<Record>)
    requires SummedUpTo(total, rs, |rs|)
    ensures total == TotalSize(rs)
  {
    var rest := rs[|rs|..];
    assert rest == [] && TotalSize(rest) == 0;
    Unwrapped(total);
  }

  lemma Unwrapped(n: u64)
    ensures n % U64_LIMIT == n
  {
  }

  lemma SummedOneMore(total: u64, rs: seq<Record>, i: nat)
    requires i < |rs| && SummedUpTo(total, rs, i)
    ensures SummedUpTo((total + RegularSize(rs[i].meta)) % U64_LIMIT, rs, i + 1)
  {
    assert rs[i..][0] == rs[i] && rs[i..][1..] == rs[i + 1..];
    AddModulo(total, RegularSize(rs[i].meta), TotalSize(rs[i + 1..]));
  }

  lemma AddModulo(a: nat, b: nat, c: nat)
    ensures ((a + b) % U64_LIMIT + c) % U64_LIMIT == (a + (b + c) % U64_LIMIT) % U64_LIMIT
  {
  }

  function Stream(rs: seq<Record>): bytes {
    Size(|rs|) + Word(TotalSize(rs)) + EncodeRecords(rs)
  }

  function BodyOf(node: Node): bytes {
    match node
    case File(meta, content) => SentContent(content, SizeOf(meta))
    case Link(_, target, _) => Size(|target|) + target
    case _ => []
  }

  /** Whether the sender gets past a file. */
  predicate Ends(node: Node) {
    node.File? ==> SizeOf(node.meta) <= |node.content|
  }

  /** The path string of an item below `base`, without its first `BaseLength(base)` characters. */
  function RelativePath(base: bytes, p: Path): bytes {
    var full := AppendAll(base, p);
    if BaseLength(base) <= |full| then full[BaseLength(base)..] else []
  }

  function RecordOf(base: bytes, item: Item): Record {
    Record(item.node.meta, RelativePath(base, item.path), BodyOf(item.node), Ends(item.node))
  }

  function Records(base: bytes, items: seq<Item>): (rs: seq<Record>)
    ensures |rs| == |items|
    ensures forall i | 0 <= i < |items| :: rs[i] == RecordOf(base, items[i])
  {
    seq(|items|, i requires 0 <= i < |items| => RecordOf(base, items[i]))
  }

  // ---- The sender ----

  /** An entry of the sender's list: the full path and what is found there. */
  datatype Dentry = Dentry(path: bytes, node: Node)

  function DentriesOf(base: bytes, items: seq<Item>): (ds: seq<Dentry>)
    ensures |ds| == |items|
    ensures forall i | 0 <= i < |items| :: ds[i] == Dentry(AppendAll(base, items[i].path), items[i].node)
  {
    seq(|items|, i requires 0 <= i < |items| => Dentry(AppendAll(base, items[i].path), items[i].node))
  }

  lemma DentriesOfConcat(base: bytes, a: seq<Item>, b: seq<Item>)
    ensures DentriesOf(base, a + b) == DentriesOf(base, a) + DentriesOf(base, b)
  {
  }

  ghost predicate AllMatch(baseLength: nat, ds: seq<Dentry>, rs: seq<Record>) {
    && |rs| == |ds|
    && forall i {:trigger Matches(baseLength, ds[i], rs[i])} | 0 <= i < |rs| :: Matches(baseLength, ds[i], rs[i])
  }

  /** The items listed for one root. */
  function RootItems(name: Name, node: Node): seq<Item> {
    [Item([name], node)] + Flatten([name], Inside(node), false)
  }

  function Prepend(a: seq<Item>, b: Option<seq<Item>>): Option<seq<Item>> {
    if b.Some? then Some(a + b.value) else None
  }

  lemma PrependNothing(b: Option<seq<Item>>)
    ensures Prepend([], b) == b
  {
    if b.Some? {
      assert [] + b.value == b.value;
    }
  }

  lemma PrependRoot(listed: seq<Item>, src: seq<Entry>, names: seq<Name>)
    requires names != [] && Find(src, names[0]).Some?
    ensures Prepend(listed + RootItems(names[0], Find(src, names[0]).value), FlattenRoots(src, names[1..]))
         == Prepend(listed, FlattenRoots(src, names))
  {
    var root := RootItems(names[0], Find(src, names[0]).value);
    if FlattenRoots(src, names[1..]).Some? {
      var rest := FlattenRoots(src, names[1..]).value;
      assert FlattenRoots(src, names).value == root + rest;
      assert listed + (root + rest) == (listed + root) + rest;
    }
  }

  ghost predicate Matches(baseLength: nat, d: Dentry, r: Record) {
    && Honest(d.node) && baseLength <= |d.path|
    && r == Record(d.node.meta, d.path[baseLength..], BodyOf(d.node), Ends(d.node))
  }

  lemma NextListed(base: bytes, all: seq<Item>, i: nat)
    requires i < |all|
    ensures DentriesOf(base, Supported(all[..i + 1]))
         == DentriesOf(base, Supported(all[..i]))
            + (if all[i].node.Other? then [] else [Dentry(AppendAll(base, all[i].path), all[i].node)])
  {
    assert all[..i + 1] == all[..i] + [all[i]];
    SupportedConcat(all[..i], [all[i]]);
    DentriesOfConcat(base, Supported(all[..i]), Supported([all[i]]));
  }

  class Sender {
    var basePath: bytes
    var baseLength: nat
    var dentries: seq<Dentry>
    const inputNames: seq<Name>

    constructor (basePath: bytes, inputNames: seq<Name>)
      ensures this.basePath == basePath && this.inputNames == inputNames
      ensures baseLength == 0 && dentries == []
    {
      this.basePath, this.inputNames := basePath, inputNames;
      baseLength, dentries := 0, [];
    }

    /** The base without separators at the end, and the number of characters to drop from every path. */
    method StripBase()
      modifies this`basePath, this`baseLength
      ensures basePath == StripSlashes(old(basePath)) && baseLength == BaseLength(basePath)
    {
      while basePath != [] && basePath[|basePath| - 1] == SLASH
        invariant StripSlashes(basePath) == StripSlashes(old(basePath))
        decreases |basePath|
      {
        basePath := basePath[..|basePath| - 1];
      }
      baseLength := if |basePath| > 0 then |basePath| + 1 else 0;
    }

    /** Fills the list from `src`, what the directory at the base holds. It throws at a name that is not there. */
    method CollectMetadata(src: seq<Entry>) returns (ok: bool)
      requires dentries == []
      modifies this
      ensures basePath == StripSlashes(old(basePath)) && baseLength == BaseLength(basePath)
      ensures ok <==> FlattenRoots(src, inputNames).Some?
      ensures ok ==> dentries == DentriesOf(basePath, FlattenRoots(src, inputNames).value)
    {
      StripBase();
      var k := 0;
      ghost var listed: seq<Item> := [];
      PrependNothing(FlattenRoots(src, inputNames));
      assert inputNames[0..] == inputNames;
      while k < |inputNames|
        invariant 0 <= k <= |inputNames|
        invariant basePath == StripSlashes(old(basePath)) && baseLength == BaseLength(basePath)
        invariant dentries == DentriesOf(basePath, listed)
        invariant Prepend(listed, FlattenRoots(src, inputNames[k..])) == FlattenRoots(src, inputNames)
      {
        ghost var from := inputNames[k..];
        assert from[0] == inputNames[k] && from[1..] == inputNames[k + 1..];
        var found := Find(src, inputNames[k]);
        if found == None {
          return false;
        }
        PrependRoot(listed, src, from);
        CollectRoot(inputNames[k], found.value);
        DentriesOfConcat(basePath, listed, RootItems(inputNames[k], found.value));
        listed := listed + RootItems(inputNames[k], found.value);
        k := k + 1;
      }
      assert listed + [] == listed;
      return true;
    }

    /** One root, and the loop over everything below it. */
    method CollectRoot(name: Name, node: Node)
      modifies this`dentries
      ensures dentries == old(dentries) + DentriesOf(basePath, RootItems(name, node))
    {
      ghost var root := Item([name], node);
      ghost var below := Flatten([name], Inside(node), false);
      ghost var before := dentries;
      dentries := dentries + [Dentry(Append(basePath, name), node)];
      AppendOne(basePath, name);
      assert dentries == before + DentriesOf(basePath, [root]);
      CollectBelow([name], Inside(node));
      DentriesOfConcat(basePath, [root], below);
      Regroup(before, DentriesOf(basePath, [root]), DentriesOf(basePath, below));
    }

    /** The loop over everything below one root. */
    method CollectBelow(root: Path, es: seq<Entry>)
      modifies this`dentries
      ensures dentries == old(dentries) + DentriesOf(basePath, Flatten(root, es, false))
    {
      var all := PreOrder(root, es);
      var i := 0;
      while i < |all|
        invariant 0 <= i <= |all|
        invariant dentries == old(dentries) + DentriesOf(basePath, Supported(all[..i]))
      {
        NextListed(basePath, all, i);
        if !all[i].node.Other? {
          dentries := dentries + [Dentry(AppendAll(basePath, all[i].path), all[i].node)];
        }
        i := i + 1;
      }
      assert all[..|all|] == all;
      FlattenIsSupportedPreOrder(root, es);
    }

    /** The list agrees with the records that are to be sent. */
    ghost predicate Ready(rs: seq<Record>)
      reads this
    {
      AllMatch(baseLength, dentries, rs)
    }

    method Process(sock: Socket, src: seq<Entry>) returns (ok: bool)
      requires dentries == [] && WellFormed(src)
      modifies this, sock`output
      ensures match FlattenRoots(src, inputNames)
              case None => !ok && sock.output == old(sock.output)
              case Some(items) =>
                var rs := Records(StripSlashes(old(basePath)), items);
                && Forwarded(old(sock.output), Stream(rs), AllEnd(rs), sock.output, ok)
                && (sock.lasts ==> sock.output == old(sock.output) + Stream(rs))
    {
      ghost var before := sock.output;
      ok := CollectMetadata(src);
      if !ok {
        return;
      }
      ghost var items := FlattenRoots(src, inputNames).value;
      ListedAreGood(src, inputNames);
      ghost var rs := Records(basePath, items);
      StripSlashesResult(old(basePath));
      forall i | 0 <= i < |items|
        ensures BaseLength(basePath) <= |AppendAll(basePath, items[i].path)|
      {
        assert GoodItem(items[i]);
        StripThenAppend(basePath, items[i].path);
      }
      assert Ready(rs);
      ok := SendCounts(sock, rs);
      ghost var counts := Size(|rs|) + Word(TotalSize(rs));
      if ok {
        ghost var mid := sock.output;
        ok := SendFiles(sock, rs);
        ForwardedThen(before, counts, mid, EncodeRecords(rs), AllEnd(rs), sock.output, ok, Stream(rs));
      } else {
        ForwardedTooLittle(before, counts, sock.output, EncodeRecords(rs), AllEnd(rs), Stream(rs));
      }
    }

    method SumSizes(ghost rs: seq<Record>) returns (total: u64)
      requires |rs| == |dentries| && forall i | 0 <= i < |rs| :: rs[i].meta == dentries[i].node.meta
      ensures total == TotalSize(rs)
    {
      total := 0;
      SummedNone(rs);
      for i := 0 to |dentries|
        invariant SummedUpTo(total, rs, i)
      {
        SummedOneMore(total, rs, i);
        total := (total + RegularSize(dentries[i].node.meta)) % U64_LIMIT;
      }
      SummedAll(total, rs);
    }

    /** The number of files, and the sum of the sizes of the regular ones. */
    method SendCounts(sock: Socket, ghost rs: seq<Record>) returns (ok: bool)
      requires Ready(rs)
      modifies sock`output
      ensures Sent(old(sock.output), Size(|rs|) + Word(TotalSize(rs)), sock.output, ok)
      ensures sock.lasts ==> ok
    {
      ghost var before := sock.output;
      ok := sock.Write(Size(|dentries|));
      if !ok {
        SentTooLittle(before, Size(|rs|), sock.output, Word(TotalSize(rs)));
        return;
      }
      forall i | 0 <= i < |rs| ensures rs[i].meta == dentries[i].node.meta {
        assert Matches(baseLength, dentries[i], rs[i]);
      }
      var total := SumSizes(rs);
      ghost var mid := sock.output;
      ok := sock.Write(Word(total));
      SentThen(before, Size(|rs|), mid, Word(total), sock.output, ok);
    }

    method SendFiles(sock: Socket, ghost rs: seq<Record>) returns (ok: bool)
      requires Ready(rs)
      modifies sock`output
      ensures Forwarded(old(sock.output), EncodeRecords(rs), AllEnd(rs), sock.output, ok)
      ensures sock.lasts ==> sock.output == old(sock.output) + EncodeRecords(rs)
    {
      ghost var before := sock.output;
      ghost var sent: bytes := [];
      var i := 0;
      assert rs[0..] == rs;
      while i < |dentries|
        invariant 0 <= i <= |dentries|
        invariant sock.output == before + sent
        invariant sent + EncodeRecords(rs[i..]) == EncodeRecords(rs)
        invariant forall j | 0 <= j < i :: rs[j].ends
      {
        ghost var mid := sock.output;
        assert Matches(baseLength, dentries[i], rs[i]);
        ok := SendFile(sock, dentries[i]);
        if !ok {
          SentNoMore(before, sent, mid, rs, i, sock.output, EncodeRecords(rs));
          return;
        }
        SentOneMore(sent, rs, i, EncodeRecords(rs));
        Regroup(before, sent, EncodeRecord(rs[i]));
        sent := sent + EncodeRecord(rs[i]);
        i := i + 1;
      }
      assert sent + [] == sent;
      ok := true;
    }

    /** Metadata, relative path, and what the type of the file adds. */
    method SendFile(sock: Socket, d: Dentry) returns (ok: bool)
      requires Honest(d.node) && baseLength <= |d.path|
      modifies sock`output
      ensures Forwarded(old(sock.output),
                        EncodeRecord(Record(d.node.meta, d.path[baseLength..], BodyOf(d.node), Ends(d.node))),
                        Ends(d.node), sock.output, ok)
      ensures sock.lasts ==> (ok <==> Ends(d.node))
      ensures sock.lasts ==>
        sock.output == old(sock.output)
          + EncodeRecord(Record(d.node.meta, d.path[baseLength..], BodyOf(d.node), Ends(d.node)))
    {
      ghost var before := sock.output;
      ghost var all := EncodeRecord(Record(d.node.meta, d.path[baseLength..], BodyOf(d.node), Ends(d.node)));
      var path := d.path[baseLength..];
      ghost var head := d.node.meta + (Size(|path|) + path);
      ok := sock.Write(d.node.meta);
      if ok {
        ghost var mid := sock.output;
        ok := Send(sock, Str(path));
        SentThen(before, d.node.meta, mid, Size(|path|) + path, sock.output, ok);
      } else {
        SentTooLittle(before, d.node.meta, sock.output, Size(|path|) + path);
      }
      if !ok {
        ForwardedTooLittle(before, head, sock.output, BodyOf(d.node), Ends(d.node), all);
        return;
      }
      ghost var mid := sock.output;
      ok := SendBody(sock, d.node);
      ForwardedThen(before, head, mid, BodyOf(d.node), Ends(d.node), sock.output, ok, all);
    }

    method SendBody(sock: Socket, node: Node) returns (ok: bool)
      requires Honest(node)
      modifies sock`output
      ensures Forwarded(old(sock.output), BodyOf(node), Ends(node), sock.output, ok)
      ensures sock.lasts ==> sock.output == old(sock.output) + BodyOf(node)
    {
      ghost var before := sock.output;
      match node
      case File(meta, content) => ok := SendContent(sock, content, SizeOf(meta));
      case Link(_, target, _) => ok := Send(sock, Str(target));
      case _ =>
        assert before + [] == before;
        ok := true;
    }
  }
}
