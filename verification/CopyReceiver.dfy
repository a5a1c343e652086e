/** The receiving end of a copy: reading the stream and creating files below the destination base. */
module CopyReceiver {
  import opened Wire
  import opened Serde
  import opened Sockets
  import opened Paths
  import opened Tree
  import opened FileSystem

  /** Where the receiver works: the working directory of its process, and the base it was given. */
  datatype Base = Base(cwd: Path, path: bytes)

  /** The state of the destination when the receiver is done, or when it throws. */
  datatype Outcome = Done(fs: Files, rest: bytes) | Failed(fs: Files)

  /** The blocks of a regular file are written as they are received; an incomplete block is not written. */
  function ReceiveContent(fs: Files, p: Path, size: nat, s: bytes): Outcome {
    if size <= |s| then Done(fs[p := FileObject(s[..size])], s[size..])
    else Failed(fs[p := FileObject(s[..|s| - |s| % CHUNK])])
  }

  /** Blocks for a file that could not be opened are received and lost: a stream that failed to open ignores writes, and
      only `badbit` is made to throw. */
  function DropContent(fs: Files, size: nat, s: bytes): Outcome {
    if size <= |s| then Done(fs, s[size..]) else Failed(fs)
  }

  /** What happens after metadata `m` and the path of a file were received. */
  function ReceiveBody(m: Metainfo, cwd: Path, path: bytes, fs: Files, s: bytes): Outcome {
    if IsReg(m) then
      (match OpenForWriting(fs, cwd, path)
       case None => DropContent(fs, SizeOf(m), s)
       case Some(p) => ReceiveContent(fs, p, SizeOf(m), s))
    else if IsLnk(m) then
      (match TakeText(s)
       case None => Failed(fs)
       case Some(t) =>
         match CreateSymlink(fs, cwd, path, t.value)
         case None => Failed(fs)
         case Some(linked) => Done(linked, t.rest))
    else if IsDir(m) then
      (match CreateDirectory(fs, cwd, path)
       case None => Failed(fs)
       case Some(created) => Done(created, s))
    else Done(fs, s)
  }

  function ReceiveOne(base: Base, fs: Files, s: bytes): Outcome {
    match TakeBlock(METAINFO_SIZE, s)
    case None => Failed(fs)
    case Some(m) =>
      match TakeText(m.rest)
      case None => Failed(fs)
      case Some(rel) => ReceiveBody(m.value, base.cwd, Append(base.path, rel.value), fs, rel.rest)
  }

  function ReceiveFiles(n: nat, base: Base, fs: Files, s: bytes): Outcome {
    if n == 0 then Done(fs, s)
    else
      match ReceiveOne(base, fs, s)
      case Failed(fs') => Failed(fs')
      case Done(fs', rest) => ReceiveFiles(n - 1, base, fs', rest)
  }

  function Receive(base: Base, fs: Files, s: bytes): Outcome {
    match TakeWord(s)
    case None => Failed(fs)
    case Some(amount) =>
      match TakeWord(amount.rest)
      case None => Failed(fs)
      case Some(total) => ReceiveFiles(amount.value, base, fs, total.rest)
  }

  // ---- Whatever arrives, the destination stays a tree ----

  /** Only `p` differs: it is new in an existing directory, or it was a regular file before. */
  ghost predicate OnlyAt(p: Path, fs: Files, fs': Files) {
    fs' == fs ||
    (&& p in fs' && fs' == fs[p := fs'[p]]
     && (if p in fs then fs[p].FileObject? && fs'[p].FileObject? else HasParent(fs, p)))
  }

  lemma OnlyAtKeepsTree(p: Path, fs: Files, fs': Files)
    requires IsTree(fs) && OnlyAt(p, fs, fs')
    ensures IsTree(fs') && fs.Keys <= fs'.Keys
  {
    forall q | q in fs' && q != [] ensures HasParent(fs', q) {
      if q in fs {
        assert HasParent(fs, q);
      }
    }
  }

  /** The place a received file is written to or created at, if any. */
  function PlaceOf(m: Metainfo, fs: Files, cwd: Path, path: bytes): Option<Path> {
    if IsReg(m) then OpenForWriting(fs, cwd, path)
    else if IsLnk(m) then PlaceOfLink(fs, cwd, path)
    else if IsDir(m) then PlaceOfDirectory(fs, cwd, path)
    else None
  }

  /** Receiving a file changes at most the place its path leads to, which is new in an existing directory or was a regular
      file. */
  lemma BodyChangesOnePlace(m: Metainfo, cwd: Path, path: bytes, fs: Files, s: bytes)
    ensures match PlaceOf(m, fs, cwd, path)
            case None => ReceiveBody(m, cwd, path, fs, s).fs == fs
            case Some(p) => OnlyAt(p, fs, ReceiveBody(m, cwd, path, fs, s).fs)
  {
    var place := PlaceOf(m, fs, cwd, path);
    if place.Some? && ReceiveBody(m, cwd, path, fs, s).fs != fs {
      var o := ReceiveBody(m, cwd, path, fs, s).fs[place.value];
      assert fs[place.value := o][place.value] == o;
    }
  }

  /** A regular file is received whole whatever happens to it. Its content is lost, with nothing changed, if the path
      cannot be opened; otherwise it is at the place the path leads to. */
  lemma FileArrives(m: Metainfo, cwd: Path, path: bytes, fs: Files, s: bytes)
    requires IsReg(m) && SizeOf(m) <= |s|
    ensures var end := ReceiveBody(m, cwd, path, fs, s);
      && end.Done? && end.rest == s[SizeOf(m)..]
      && match OpenForWriting(fs, cwd, path)
         case None => end.fs == fs
         case Some(p) => forall q :: At(end.fs, q) == if q == p then Some(FileObject(s[..SizeOf(m)])) else At(fs, q)
  {
  }

  /** For every stream, of any sender and cut anywhere, with any links and dots on the way: no object is created outside
      a directory, and none is removed. */
  lemma {:induction false} ReceiveKeepsTree(n: nat, base: Base, fs: Files, s: bytes)
    requires IsTree(fs)
    ensures IsTree(ReceiveFiles(n, base, fs, s).fs) && fs.Keys <= ReceiveFiles(n, base, fs, s).fs.Keys
  {
    if n > 0 {
      var one := ReceiveOne(base, fs, s);
      var more: nat := n - 1;
      OneKeepsTree(base, fs, s);
      AfterFirstFile(n, more, base, fs, s);
      if one.Done? {
        ReceiveKeepsTree(more, base, one.fs, one.rest);
      }
    }
  }

  lemma AfterFirstFile(n: nat, more: nat, base: Base, fs: Files, s: bytes)
    requires n == more + 1
    ensures var one := ReceiveOne(base, fs, s);
      ReceiveFiles(n, base, fs, s) == if one.Done? then ReceiveFiles(more, base, one.fs, one.rest) else one
  {
  }

  lemma OneKeepsTree(base: Base, fs: Files, s: bytes)
    requires IsTree(fs)
    ensures IsTree(ReceiveOne(base, fs, s).fs) && fs.Keys <= ReceiveOne(base, fs, s).fs.Keys
  {
    var m := TakeBlock(METAINFO_SIZE, s);
    if m.Some? && TakeText(m.value.rest).Some? {
      var rel := TakeText(m.value.rest).value;
      var path := Append(base.path, rel.value);
      var place := PlaceOf(m.value.value, fs, base.cwd, path);
      BodyChangesOnePlace(m.value.value, base.cwd, path, fs, rel.rest);
      if place.Some? {
        OnlyAtKeepsTree(place.value, fs, ReceiveBody(m.value.value, base.cwd, path, fs, rel.rest).fs);
      }
    }
  }

  // ---- The receiver ----

  class Receiver {
    const base: Base
    /** The file system the receiver works on. */
    var fs: Files

    constructor (base: Base, fs: Files)
      ensures this.base == base && this.fs == fs
    {
      this.base, this.fs := base, fs;
    }

    ghost predicate Reached(o: Outcome, ok: bool, left: bytes)
      reads this
    {
      fs == o.fs && (ok <==> o.Done?) && (ok ==> left == o.rest)
    }

    method Process(sock: Socket) returns (ok: bool)
      modifies this`fs, sock`input
      ensures Reached(Receive(base, old(fs), old(sock.input)), ok, sock.input)
    {
      var amount := RecvWord(sock);
      if amount == None {
        return false;
      }
      var total := RecvWord(sock);
      if total == None {
        return false;
      }
      ghost var end := ReceiveFiles(amount.value, base, fs, sock.input);
      var i := 0;
      ghost var left: nat := amount.value;
      while i < amount.value
        invariant 0 <= i && i + left == amount.value
        invariant ReceiveFiles(left, base, fs, sock.input) == end
      {
        ghost var more: nat := left - 1;
        AfterFirstFile(left, more, base, fs, sock.input);
        ok := ReceiveFile(sock);
        if !ok {
          return;
        }
        i := i + 1;
        left := more;
      }
      ok := true;
    }

    method ReceiveFile(sock: Socket) returns (ok: bool)
      modifies this`fs, sock`input
      ensures Reached(ReceiveOne(base, old(fs), old(sock.input)), ok, sock.input)
    {
      var meta := sock.ReadExact(METAINFO_SIZE);
      if meta == None {
        return false;
      }
      var rel := RecvText(sock);
      if rel == None {
        return false;
      }
      ok := CreateOne(sock, meta.value, Append(base.path, rel.value));
    }

    /** What the type of the file asks for. */
    method CreateOne(sock: Socket, meta: Metainfo, path: bytes) returns (ok: bool)
      modifies this`fs, sock`input
      ensures Reached(ReceiveBody(meta, base.cwd, path, old(fs), old(sock.input)), ok, sock.input)
    {
      if IsReg(meta) {
        var place := OpenForWriting(fs, base.cwd, path);
        if place.Some? {
          fs := fs[place.value := FileObject([])];
        }
        ok := WriteContent(sock, place, SizeOf(meta));
      } else if IsLnk(meta) {
        var target := RecvText(sock);
        if target == None {
          return false;
        }
        var linked := CreateSymlink(fs, base.cwd, path, target.value);
        ok := linked.Some?;
        if ok {
          fs := linked.value;
        }
      } else if IsDir(meta) {
        var created := CreateDirectory(fs, base.cwd, path);
        ok := created.Some?;
        if ok {
          fs := created.value;
        }
      } else {
        ok := true;
      }
    }

    /** The loop that receives blocks of exactly the expected length and writes them, if the file could be opened. */
    method WriteContent(sock: Socket, place: Option<Path>, size: nat) returns (ok: bool)
      requires place.Some? ==> At(fs, place.value) == Some(FileObject([]))
      modifies this`fs, sock`input
      ensures match place
              case None => Reached(DropContent(old(fs), size, old(sock.input)), ok, sock.input)
              case Some(p) => Reached(ReceiveContent(old(fs), p, size, old(sock.input)), ok, sock.input)
    {
      ghost var s := sock.input;
      var progress := 0;
      while progress < size
        invariant 0 <= progress <= size && progress <= |s|
        invariant progress < size ==> progress % CHUNK == 0
        invariant sock.input == s[progress..]
        invariant fs == if place.Some? then old(fs)[place.value := FileObject(s[..progress])] else old(fs)
      {
        var wanted := if CHUNK <= size - progress then CHUNK else size - progress;
        var block := sock.ReadExact(wanted);
        if block == None {
          CutInBlocks(|s|, progress, wanted);
          return false;
        }
        if place.Some? {
          NextBlock(s, progress, wanted);
          fs := fs[place.value := FileObject(fs[place.value].content + block.value)];
        }
        progress := progress + wanted;
      }
      ok := true;
    }
  }

  lemma NextBlock(s: bytes, i: nat, n: nat)
    requires i + n <= |s|
    ensures s[..i] + s[i..][..n] == s[..i + n] && s[i..][n..] == s[i + n..]
  {
  }

  lemma CutInBlocks(length: nat, progress: nat, wanted: nat)
    requires progress <= length < progress + wanted && progress % CHUNK == 0 && wanted <= CHUNK
    ensures progress == length - length % CHUNK
  {
  }
}
